/** The handful of Python `str` operations that the scraper's decisions are built from:
    substring search (`sub in s`), `strip`, `split` on one character, `join`,
    `replace` of one character, `isspace` and `isdigit`. */
module Text {
  import opened Wrappers

  /** Python's `c.isspace()`; a `\s` in a `str` regular expression matches exactly these
      characters. */
  predicate IsSpace(c: char) {
    || '\t' <= c <= '\r' || '\U{001C}' <= c <= '\U{001F}' || c == ' '
    || c == '\U{0085}' || c == '\U{00A0}' || c == '\U{1680}' || '\U{2000}' <= c <= '\U{200A}'
    || c == '\U{2028}' || c == '\U{2029}' || c == '\U{202F}' || c == '\U{205F}' || c == '\U{3000}'
  }

  /** Python's `char.isdigit()`, restricted to the ASCII digits. */
  predicate IsDigit(c: char) {
    '0' <= c <= '9'
  }

  /** `any(char.isdigit() for char in s)` */
  predicate HasDigit(s: string) {
    exists i :: 0 <= i < |s| && IsDigit(s[i])
  }

  // ---------------------------------------------------------------- substring search

  /** `sub` sits in `s` starting at index `i`. */
  predicate OccursAt(s: string, sub: string, i: nat) {
    i + |sub| <= |s| && s[i..i + |sub|] == sub
  }

  /** The first index at or after `from` where `sub` occurs (Python's `s.find(sub, from)`). */
  function IndexOfFrom(s: string, sub: string, from: nat): (r: Option<nat>)
    ensures r.Some? ==> from <= r.value && OccursAt(s, sub, r.value)
    ensures r.Some? ==> forall k :: from <= k < r.value ==> !OccursAt(s, sub, k)
    ensures r.None? ==> forall k :: from <= k ==> !OccursAt(s, sub, k)
    decreases |s| - from
  {
    if from + |sub| > |s| then None
    else if s[from..from + |sub|] == sub then Some(from)
    else IndexOfFrom(s, sub, from + 1)
  }

  function IndexOf(s: string, sub: string): (r: Option<nat>)
    ensures r.Some? ==> OccursAt(s, sub, r.value) && forall k :: 0 <= k < r.value ==> !OccursAt(s, sub, k)
    ensures r.None? ==> forall k :: 0 <= k ==> !OccursAt(s, sub, k)
  {
    IndexOfFrom(s, sub, 0)
  }

  /** Python's `sub in s`. */
  predicate Contains(s: string, sub: string) {
    exists i: nat :: i <= |s| - |sub| && OccursAt(s, sub, i)
  }

  /** `sub in s` exactly when `s.find(sub)` finds it. */
  lemma ContainsIsFound(s: string, sub: string)
    ensures Contains(s, sub) <==> IndexOf(s, sub).Some?
  {
  }

  // ---------------------------------------------------------------- strip

  /** The characters a `strip` call removes: whitespace for `strip()`, slashes for
      `strip("/")`. */
  datatype StripChars = Whitespace | Slashes

  predicate Dropped(chars: StripChars, c: char) {
    match chars
    case Whitespace => IsSpace(c)
    case Slashes => c == '/'
  }

  /** The first index at or after `from` whose character is kept. */
  function KeepFrom(s: string, drop: StripChars, from: nat): (i: nat)
    requires from <= |s|
    ensures from <= i <= |s|
    ensures i < |s| ==> !Dropped(drop, s[i])
    decreases |s| - from
  {
    if from < |s| && Dropped(drop, s[from]) then KeepFrom(s, drop, from + 1) else from
  }

  lemma {:induction false} KeepFromSkipsDropped(s: string, drop: StripChars, from: nat)
    requires from <= |s|
    ensures forall k :: from <= k < KeepFrom(s, drop, from) ==> Dropped(drop, s[k])
    decreases |s| - from
  {
    if from < |s| && Dropped(drop, s[from]) {
      KeepFromSkipsDropped(s, drop, from + 1);
    }
  }

  /** The end of the last kept character before `end`, no lower than `lo`. */
  function KeepUntil(s: string, drop: StripChars, lo: nat, end: nat): (j: nat)
    requires lo <= end <= |s|
    ensures lo <= j <= end
    ensures lo < j ==> !Dropped(drop, s[j - 1])
    decreases end - lo
  {
    if lo < end && Dropped(drop, s[end - 1]) then KeepUntil(s, drop, lo, end - 1) else end
  }

  lemma {:induction false} KeepUntilSkipsDropped(s: string, drop: StripChars, lo: nat, end: nat)
    requires lo <= end <= |s|
    ensures forall k :: KeepUntil(s, drop, lo, end) <= k < end ==> Dropped(drop, s[k])
    decreases end - lo
  {
    if lo < end && Dropped(drop, s[end - 1]) {
      KeepUntilSkipsDropped(s, drop, lo, end - 1);
    }
  }

  /** Where the slice that `strip` keeps starts: `len(s) - len(s.lstrip(chars))`. */
  function StripStart(s: string, drop: StripChars): nat {
    KeepFrom(s, drop, 0)
  }

  /** Python's `s.strip(chars)`: a slice of `s` that neither starts nor ends with a character
      to drop. */
  function Strip(s: string, drop: StripChars): (r: string)
    ensures var i := StripStart(s, drop); i + |r| <= |s| && r == s[i..i + |r|]
    ensures r != [] ==> !Dropped(drop, r[0]) && !Dropped(drop, r[|r| - 1])
  {
    var i := StripStart(s, drop);
    s[i..KeepUntil(s, drop, i, |s|)]
  }

  /** Everything `strip` removes, in front of the slice it keeps and behind it, is to be
      dropped. */
  lemma StripDropsOutside(s: string, drop: StripChars)
    ensures var i := StripStart(s, drop); var r := Strip(s, drop);
      && (forall k :: 0 <= k < i ==> Dropped(drop, s[k]))
      && (forall k :: i + |r| <= k < |s| ==> Dropped(drop, s[k]))
  {
    KeepFromSkipsDropped(s, drop, 0);
    KeepUntilSkipsDropped(s, drop, StripStart(s, drop), |s|);
  }

  /** Python's `s.strip()`. */
  function StripSpace(s: string): (r: string)
    ensures r != [] ==> !IsSpace(r[0]) && !IsSpace(r[|r| - 1])
  {
    Strip(s, Whitespace)
  }

  /** Whatever `strip` keeps is a slice of the input, so it brings no new character. */
  lemma StripKeeps(s: string, drop: StripChars, c: char)
    requires c in Strip(s, drop)
    ensures c in s
  {
    var r := Strip(s, drop);
    var i := StripStart(s, drop);
    var k :| 0 <= k < |r| && r[k] == c;
    assert s[i + k] == c;
  }

  /** Stripping a string that neither starts nor ends with a dropped character changes nothing. */
  lemma StripOfTrimmed(s: string, drop: StripChars)
    requires s != [] ==> !Dropped(drop, s[0]) && !Dropped(drop, s[|s| - 1])
    ensures Strip(s, drop) == s
  {
  }

  /** When `s[lo]` and `s[hi - 1]` are kept and everything from `hi` on is dropped, `strip`
      keeps `s[i..hi]` for some `i <= lo`. */
  lemma StripWithin(s: string, drop: StripChars, lo: nat, hi: nat) returns (i: nat)
    requires lo < hi <= |s| && !Dropped(drop, s[lo]) && !Dropped(drop, s[hi - 1])
    requires forall k :: hi <= k < |s| ==> Dropped(drop, s[k])
    ensures i <= lo && Strip(s, drop) == s[i..hi]
  {
    StripDropsOutside(s, drop);
    i := StripStart(s, drop);
    var r := Strip(s, drop);
    var j := i + |r|;
    assert i <= lo && hi <= j;
    assert r[|r| - 1] == s[j - 1];
  }

  /** `strip("/")` of a path `<prefix><body>` followed by slashes, where `body` neither starts
      nor ends with a slash and `prefix` is empty or ends with one, is `body` behind a tail
      `p` of the prefix that again is empty or ends with a slash. */
  lemma StripSlashesOff(prefix: string, body: string, slashes: string) returns (p: string)
    requires body != "" && body[0] != '/' && body[|body| - 1] != '/'
    requires prefix == "" || prefix[|prefix| - 1] == '/'
    requires forall k :: 0 <= k < |slashes| ==> slashes[k] == '/'
    ensures Strip(prefix + body + slashes, Slashes) == p + body
    ensures p == "" || p[|p| - 1] == '/'
  {
    var pb := prefix + body;
    var s := pb + slashes;
    assert s[|prefix|] == body[0] && s[|pb| - 1] == body[|body| - 1];
    assert forall k :: |pb| <= k < |s| ==> s[k] == slashes[k - |pb|];
    var i := StripWithin(s, Slashes, |prefix|, |pb|);
    p := prefix[i..];
    assert s[i..|pb|] == p + body;
  }

  // ---------------------------------------------------------------- split and join

  /** Python's `sep.join(parts)`. */
  function Join(parts: seq<string>, sep: char): string {
    if parts == [] then ""
    else if |parts| == 1 then parts[0]
    else parts[0] + [sep] + Join(parts[1..], sep)
  }

  /** Python's `s.split(sep)` for a one-character separator: at least one part, no part
      holds the separator, and joining the parts again gives back `s`. */
  function Split(s: string, sep: char): (parts: seq<string>)
    ensures |parts| >= 1
    ensures forall i :: 0 <= i < |parts| ==> sep !in parts[i]
    ensures Join(parts, sep) == s
  {
    if s == [] then [""]
    else
      var rest := Split(s[1..], sep);
      if s[0] == sep then
        [""] + rest
      else
        var parts := [[s[0]] + rest[0]] + rest[1..];
        assert parts[1..] == rest[1..];
        assert Join(parts, sep) == s by {
          if |rest| == 1 {
          } else {
            assert Join(rest, sep) == rest[0] + [sep] + Join(rest[1..], sep);
          }
        }
        parts
  }

  /** Python's `s.split(sep)[0]`: the text before the first separator. */
  function FirstSegment(s: string, sep: char): (r: string)
    ensures sep !in r && |r| <= |s| && r == s[..|r|]
    ensures |r| == |s| || s[|r|] == sep
  {
    FirstSegmentIsPrefix(s, sep);
    Split(s, sep)[0]
  }

  lemma {:induction false} FirstSegmentIsPrefix(s: string, sep: char)
    ensures var r := Split(s, sep)[0];
      |r| <= |s| && r == s[..|r|] && (|r| == |s| || s[|r|] == sep)
  {
    if s != [] && s[0] != sep {
      FirstSegmentIsPrefix(s[1..], sep);
    }
  }

  /** Python's `s.split(sep)[-1]`: the text after the last separator. */
  function LastSegment(s: string, sep: char): (r: string)
    ensures sep !in r && |r| <= |s| && r == s[|s| - |r|..]
    ensures |r| == |s| || s[|s| - |r| - 1] == sep
  {
    LastSegmentIsSuffix(s, sep);
    var parts := Split(s, sep);
    parts[|parts| - 1]
  }

  lemma {:induction false} LastSegmentIsSuffix(s: string, sep: char)
    ensures var parts := Split(s, sep); var r := parts[|parts| - 1];
      |r| <= |s| && r == s[|s| - |r|..] && (|r| == |s| || s[|s| - |r| - 1] == sep)
  {
    if s != [] {
      var t := s[1..];
      LastSegmentIsSuffix(t, sep);
      var rest := Split(t, sep);
      var last := rest[|rest| - 1];
      if s[0] == sep || |rest| > 1 {
        assert Split(s, sep)[|Split(s, sep)| - 1] == last;
        assert t[|t| - |last|..] == s[|s| - |last|..];
      } else {
        assert Join(rest, sep) == rest[0] == t;
        assert Split(s, sep) == [[s[0]] + t];
        assert [s[0]] + t == s;
      }
    }
  }

  /** The last segment is the longest suffix free of the separator: any suffix `h` free of
      `sep` that is the whole of `s` or follows a separator is it. */
  lemma LastSegmentUnique(s: string, sep: char, h: string)
    requires |h| <= |s| && s[|s| - |h|..] == h && sep !in h
    requires |h| == |s| || s[|s| - |h| - 1] == sep
    ensures LastSegment(s, sep) == h
  {
    var r := LastSegment(s, sep);
    assert s[|s| - |r|..] == r;
  }

  /** `len(s.split(sep)) == 1` exactly when `sep` does not occur in `s`. */
  lemma {:induction false} SingleSegment(s: string, sep: char)
    ensures |Split(s, sep)| == 1 <==> sep !in s
  {
    if s != [] {
      SingleSegment(s[1..], sep);
      assert s == [s[0]] + s[1..];
    }
  }

  /** Splitting `a + sep + b` where `a` holds no separator gives `a` and then the parts of `b`. */
  lemma {:induction false} SplitAfterFirst(a: string, b: string, sep: char)
    requires sep !in a
    ensures Split(a + [sep] + b, sep) == [a] + Split(b, sep)
  {
    var s := a + [sep] + b;
    if a == [] {
      assert s[0] == sep && s[1..] == b;
    } else {
      assert s[0] == a[0] && s[1..] == a[1..] + [sep] + b;
      SplitAfterFirst(a[1..], b, sep);
      assert Split(s, sep) == [[a[0]] + a[1..]] + Split(b, sep);
      assert [a[0]] + a[1..] == a;
    }
  }

  /** A string without the separator splits into itself. */
  lemma SplitNoSep(s: string, sep: char)
    requires sep !in s
    ensures Split(s, sep) == [s]
  {
    SingleSegment(s, sep);
    assert Join(Split(s, sep), sep) == Split(s, sep)[0];
  }

  /** Splitting `a + sep + b` where `b` holds no separator gives the parts of `a` and then `b`. */
  lemma {:induction false} SplitBeforeLast(a: string, b: string, sep: char)
    requires sep !in b
    ensures Split(a + [sep] + b, sep) == Split(a, sep) + [b]
  {
    var s := a + [sep] + b;
    if a == [] {
      assert s[1..] == b;
      SplitNoSep(b, sep);
    } else {
      assert s[0] == a[0] && s[1..] == a[1..] + [sep] + b;
      SplitBeforeLast(a[1..], b, sep);
      var rest := Split(a[1..], sep);
      if a[0] == sep {
        assert Split(s, sep) == [""] + (rest + [b]);
        assert Split(a, sep) == [""] + rest;
      } else {
        assert (rest + [b])[0] == rest[0] && (rest + [b])[1..] == rest[1..] + [b];
        assert Split(s, sep) == [[a[0]] + rest[0]] + (rest[1..] + [b]);
        assert Split(a, sep) == [[a[0]] + rest[0]] + rest[1..];
      }
    }
  }

  /** Joining one more part appends the separator and the part. */
  lemma {:induction false} JoinSnoc(parts: seq<string>, last: string, sep: char)
    requires |parts| >= 1
    ensures Join(parts + [last], sep) == Join(parts, sep) + [sep] + last
  {
    if |parts| > 1 {
      JoinSnoc(parts[1..], last, sep);
      assert (parts + [last])[1..] == parts[1..] + [last];
    }
  }

  /** `split` undoes `join` when no part holds the separator. */
  lemma {:induction false} SplitJoin(parts: seq<string>, sep: char)
    requires |parts| >= 1
    requires forall i :: 0 <= i < |parts| ==> sep !in parts[i]
    ensures Split(Join(parts, sep), sep) == parts
  {
    if |parts| == 1 {
      SingleSegment(parts[0], sep);
      assert Join(Split(parts[0], sep), sep) == parts[0];
    } else {
      SplitJoin(parts[1..], sep);
      SplitAfterFirst(parts[0], Join(parts[1..], sep), sep);
      assert [parts[0]] + parts[1..] == parts;
    }
  }

  /** A character that is not a digit separates no digits: `Join(parts, sep)` holds a
      digit exactly when one of the parts does. */
  lemma {:induction false} HasDigitJoin(parts: seq<string>, sep: char)
    requires !IsDigit(sep)
    ensures HasDigit(Join(parts, sep)) <==> exists i :: 0 <= i < |parts| && HasDigit(parts[i])
  {
    if |parts| > 1 {
      HasDigitJoin(parts[1..], sep);
      var rest := Join(parts[1..], sep);
      var whole := parts[0] + [sep] + rest;
      if HasDigit(whole) {
        var k :| 0 <= k < |whole| && IsDigit(whole[k]);
        if k < |parts[0]| {
          assert HasDigit(parts[0]);
        } else {
          assert whole[k] == rest[k - |parts[0]| - 1];
          assert HasDigit(rest);
          var i :| 0 <= i < |parts[1..]| && HasDigit(parts[1..][i]);
          assert HasDigit(parts[i + 1]);
        }
      }
      if exists i :: 0 <= i < |parts| && HasDigit(parts[i]) {
        var i :| 0 <= i < |parts| && HasDigit(parts[i]);
        if i == 0 {
          var k :| 0 <= k < |parts[0]| && IsDigit(parts[0][k]);
          assert whole[k] == parts[0][k];
        } else {
          assert HasDigit(parts[1..][i - 1]);
          var k :| 0 <= k < |rest| && IsDigit(rest[k]);
          assert whole[|parts[0]| + 1 + k] == rest[k];
        }
      }
    }
  }

  /** Python's `s.replace(old, new)` for single characters. */
  function ReplaceChar(s: string, from: char, into: char): (r: string)
    ensures |r| == |s|
    ensures forall i :: 0 <= i < |s| ==> r[i] == (if s[i] == from then into else s[i])
  {
    seq(|s|, i requires 0 <= i < |s| => if s[i] == from then into else s[i])
  }
}
