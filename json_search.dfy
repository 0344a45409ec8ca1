/** A parsed response body and the depth-first search for a username inside it
    (`find_username_in_json`). */
module JsonSearch {
  import opened Wrappers

  /** A decoded JSON value. An object keeps its members in document order; the parser hands
      over objects whose keys are distinct. */
  datatype Json =
    | JNull
    | JBool(b: bool)
    | JNumber(n: real)
    | JString(s: string)
    | JArray(items: seq<Json>)
    | JObject(members: seq<Member>)

  datatype Member = Member(key: string, value: Json)

  /** Python's truth value of the decoded value (`None`, `False`, `0`, `""`, `[]` and `{}`
      are false). */
  predicate Truthy(j: Json) {
    match j
    case JNull => false
    case JBool(b) => b
    case JNumber(n) => n != 0.0
    case JString(s) => s != ""
    case JArray(items) => items != []
    case JObject(members) => members != []
  }

  /** `obj[key]` for `key in obj`, and `None` when the key is absent. */
  function Lookup(members: seq<Member>, key: string): (r: Option<Json>)
    ensures r.Some? <==> exists i :: 0 <= i < |members| && members[i].key == key
    ensures r.Some? ==> exists i :: 0 <= i < |members| && members[i] == Member(key, r.value)
  {
    if members == [] then None
    else if members[0].key == key then Some(members[0].value)
    else
      var r := Lookup(members[1..], key);
      assert forall i :: 1 <= i < |members| ==> members[i] == members[1..][i - 1];
      r
  }

  predicate IsContainer(j: Json) {
    j.JObject? || j.JArray?
  }

  /** `obj["owner"]["username"]`, when `owner` is a dict holding `username`. */
  function OwnerUsername(members: seq<Member>): Option<Json> {
    var owner := Lookup(members, "owner");
    if owner.Some? && owner.value.JObject? then Lookup(owner.value.members, "username") else None
  }

  /** `obj["username"]`, when `obj` holds both `username` and `is_verified`. */
  function VerifiedUsername(members: seq<Member>): Option<Json> {
    if Lookup(members, "username").Some? && Lookup(members, "is_verified").Some?
    then Lookup(members, "username")
    else None
  }

  /** What a dict answers by itself, before its values are searched. */
  function DirectHit(j: Json): Option<Json> {
    match j
    case JObject(members) =>
      if OwnerUsername(members).Some? then OwnerUsername(members) else VerifiedUsername(members)
    case _ => None
  }

  /** `find_username_in_json`. At a dict: the owner's username, else the username of a dict that
      also says `is_verified`, else the first truthy result of searching its dict and list
      values in order. At a list: the first truthy result of its items in order. A direct
      answer is returned as it is, even when it is false-valued. */
  function FindUsername(j: Json): (r: Json)
    ensures !IsContainer(j) ==> r == JNull
    decreases j, 1
  {
    match j
    case JObject(members) =>
      if OwnerUsername(members).Some? then OwnerUsername(members).value
      else if VerifiedUsername(members).Some? then VerifiedUsername(members).value
      else SearchMembers(members)
    case JArray(items) => SearchItems(items)
    case _ => JNull
  }

  /** The loop over `obj.items()`: only dict and list values are searched. */
  function SearchMembers(members: seq<Member>): (r: Json)
    decreases members, 0
  {
    if members == [] then JNull
    else if IsContainer(members[0].value) && Truthy(FindUsername(members[0].value))
    then FindUsername(members[0].value)
    else SearchMembers(members[1..])
  }

  /** The loop over a list's items. */
  function SearchItems(items: seq<Json>): (r: Json)
    decreases items, 0
  {
    if items == [] then JNull
    else if Truthy(FindUsername(items[0])) then FindUsername(items[0])
    else SearchItems(items[1..])
  }

  // ---------------------------------------------------------------- reference definition

  /** Every direct answer the search can meet, in the order it meets them: a dict that answers
      by itself contributes that answer and hides what it contains; otherwise dict values
      and list items are visited in order. */
  function Hits(j: Json): seq<Json>
    decreases j, 1
  {
    match j
    case JObject(members) => if DirectHit(j).Some? then [DirectHit(j).value] else MemberHits(members)
    case JArray(items) => ItemHits(items)
    case _ => []
  }

  function MemberHits(members: seq<Member>): seq<Json>
    decreases members, 0
  {
    if members == [] then [] else Hits(members[0].value) + MemberHits(members[1..])
  }

  function ItemHits(items: seq<Json>): seq<Json>
    decreases items, 0
  {
    if items == [] then [] else Hits(items[0]) + ItemHits(items[1..])
  }

  /** The first truthy value of `vs`, or `JNull` when there is none. */
  function FirstTruthy(vs: seq<Json>): (r: Json)
    ensures r == JNull || Truthy(r)
    ensures Truthy(r) ==> r in vs
    ensures !Truthy(r) <==> forall i :: 0 <= i < |vs| ==> !Truthy(vs[i])
  {
    if vs == [] then JNull
    else if Truthy(vs[0]) then vs[0]
    else
      var r := FirstTruthy(vs[1..]);
      assert forall i :: 1 <= i < |vs| ==> vs[i] == vs[1..][i - 1];
      r
  }

  lemma {:induction false} FirstTruthyConcat(a: seq<Json>, b: seq<Json>)
    ensures FirstTruthy(a + b) == if Truthy(FirstTruthy(a)) then FirstTruthy(a) else FirstTruthy(b)
  {
    if a == [] {
      assert a + b == b;
    } else {
      FirstTruthyConcat(a[1..], b);
      assert (a + b)[0] == a[0];
      assert (a + b)[1..] == a[1..] + b;
    }
  }

  /** A value counted as found: a truthy one; anything else reads as `None`. */
  function AsFound(v: Json): Json {
    if Truthy(v) then v else JNull
  }

  /** The search finds the first truthy answer in visiting order; a false-valued, non-null
      result can only be the searched dict's own direct answer. */
  lemma {:induction false} FindUsernameIsFirstTruthyHit(j: Json)
    ensures AsFound(FindUsername(j)) == FirstTruthy(Hits(j))
    ensures !Truthy(FindUsername(j)) && FindUsername(j) != JNull ==> DirectHit(j) == Some(FindUsername(j))
    decreases j, 1
  {
    match j
    case JObject(members) =>
      if DirectHit(j).None? {
        SearchMembersIsFirstTruthyHit(members);
      }
    case JArray(items) =>
      SearchItemsIsFirstTruthyHit(items);
    case _ =>
  }

  lemma {:induction false} SearchMembersIsFirstTruthyHit(members: seq<Member>)
    ensures SearchMembers(members) == FirstTruthy(MemberHits(members))
    decreases members, 0
  {
    if members != [] {
      var v := members[0].value;
      FindUsernameIsFirstTruthyHit(v);
      SearchMembersIsFirstTruthyHit(members[1..]);
      FirstTruthyConcat(Hits(v), MemberHits(members[1..]));
    }
  }

  lemma {:induction false} SearchItemsIsFirstTruthyHit(items: seq<Json>)
    ensures SearchItems(items) == FirstTruthy(ItemHits(items))
    decreases items, 0
  {
    if items != [] {
      FindUsernameIsFirstTruthyHit(items[0]);
      SearchItemsIsFirstTruthyHit(items[1..]);
      FirstTruthyConcat(Hits(items[0]), ItemHits(items[1..]));
    }
  }

  /** A tree with no truthy direct answer anywhere yields no username. */
  lemma NoHitNoUsername(j: Json)
    requires forall i :: 0 <= i < |Hits(j)| ==> !Truthy(Hits(j)[i])
    ensures !Truthy(FindUsername(j))
  {
    FindUsernameIsFirstTruthyHit(j);
  }

  /** A truthy result is one of the direct answers met on the way. */
  lemma FoundIsAHit(j: Json)
    requires Truthy(FindUsername(j))
    ensures FindUsername(j) in Hits(j)
  {
    FindUsernameIsFirstTruthyHit(j);
  }

  /** At a dict the owner's username takes precedence over a verified username, which takes
      precedence over anything nested. */
  lemma DictCheckOrder(members: seq<Member>)
    ensures OwnerUsername(members).Some? ==> FindUsername(JObject(members)) == OwnerUsername(members).value
    ensures OwnerUsername(members).None? && VerifiedUsername(members).Some? ==>
      FindUsername(JObject(members)) == VerifiedUsername(members).value
  {
  }
}
