/** Parsed JSON values as the client sees them after `response.json()`, with
    the two Python operations the client applies to them: `d.get(key)` and
    `str(value)`. */
module Json {
  import opened Text

  /** A parsed JSON document. An object keeps its members in document order,
      as the dict built by Python's `json` module does. */
  datatype Json =
    | JNull
    | JBool(b: bool)
    | JNum(n: int)
    | JStr(s: string)
    | JArr(items: seq<Json>)
    | JObj(members: seq<Member>)

  /** One `"key": value` pair of a JSON object. */
  datatype Member = Member(key: string, value: Json)

  /** The value bound to `key` among `members`; with a repeated key the last
      one wins, as in a dict built from a JSON object. */
  function Lookup(members: seq<Member>, key: string): (r: Option<Json>)
    ensures r.None? <==> forall i :: 0 <= i < |members| ==> members[i].key != key
    ensures r.Some? ==> exists i :: 0 <= i < |members| && members[i] == Member(key, r.value)
                          && forall j :: i < j < |members| ==> members[j].key != key
  {
    if members == [] then None
    else if members[|members| - 1].key == key then Some(members[|members| - 1].value)
    else Lookup(members[..|members| - 1], key)
  }

  /** `d.get(key)` on a parsed object: the bound value, or `None` (JSON null)
      when the key is absent. A JSON null and a missing key read the same. */
  function Get(members: seq<Member>, key: string): (r: Json)
    ensures (forall i :: 0 <= i < |members| ==> members[i].key != key) ==> r == JNull
    ensures forall i :: 0 <= i < |members| && members[i].key == key ==>
              (forall j :: i < j < |members| ==> members[j].key != key) ==> r == members[i].value
  {
    match Lookup(members, key)
    case Some(v) => v
    case None => JNull
  }

  /** A key bound exactly once reads back as its value. */
  lemma GetUnique(members: seq<Member>, i: int)
    requires 0 <= i < |members|
    requires forall j :: 0 <= j < |members| && j != i ==> members[j].key != members[i].key
    ensures Get(members, members[i].key) == members[i].value
  {
    var r := Lookup(members, members[i].key);
    assert r.Some?;
  }

  /** The keys of the dict a parsed object becomes: each key once, in the
      order of its first occurrence. */
  function Keys(members: seq<Member>): (r: seq<string>)
    ensures forall k :: k in r <==> exists i :: 0 <= i < |members| && members[i].key == k
    ensures forall p, q :: 0 <= p < q < |r| ==> r[p] != r[q]
  {
    if members == [] then []
    else
      var ks := Keys(members[..|members| - 1]);
      var k := members[|members| - 1].key;
      if k in ks then ks else ks + [k]
  }

  /** Key `a` occurs in `members` before any occurrence of key `b`. */
  predicate OccursFirst(members: seq<Member>, a: string, b: string)
  {
    exists i :: 0 <= i < |members| && members[i].key == a
                && forall j :: 0 <= j <= i ==> members[j].key != b
  }

  /** The keys come in the order of their first occurrence: a key listed
      before another first occurs before the other's first occurrence. */
  lemma {:induction false} KeysInFirstOccurrenceOrder(members: seq<Member>)
    ensures forall p, q :: 0 <= p < q < |Keys(members)| ==>
              OccursFirst(members, Keys(members)[p], Keys(members)[q])
    decreases |members|
  {
    if members != [] {
      var init := members[..|members| - 1];
      var ks := Keys(init);
      var k := members[|members| - 1].key;
      KeysInFirstOccurrenceOrder(init);
      var r := Keys(members);
      assert r == ks || r == ks + [k];
      forall p, q | 0 <= p < q < |r| ensures OccursFirst(members, r[p], r[q]) {
        if q < |ks| {
          assert r[p] == ks[p] && r[q] == ks[q];
          assert OccursFirst(init, ks[p], ks[q]);
          OccursFirstExtends(init, members[|members| - 1], ks[p], ks[q]);
          assert init + [members[|members| - 1]] == members;
        } else {
          assert r == ks + [k] && r[q] == k && r[p] == ks[p];
          OccursFirstOfNew(members, ks[p], k);
        }
      }
    } else {
      assert Keys(members) == [];
    }
  }

  /** Appending a member keeps an earlier first occurrence first. */
  lemma OccursFirstExtends(members: seq<Member>, m: Member, a: string, b: string)
    requires OccursFirst(members, a, b)
    ensures OccursFirst(members + [m], a, b)
  {
    var i :| 0 <= i < |members| && members[i].key == a
             && forall j :: 0 <= j <= i ==> members[j].key != b;
    assert forall j :: 0 <= j <= i ==> (members + [m])[j] == members[j];
  }

  /** A key already present occurs before a key that only the last member
      brings. */
  lemma OccursFirstOfNew(members: seq<Member>, a: string, b: string)
    requires members != []
    requires a in Keys(members[..|members| - 1]) && b !in Keys(members[..|members| - 1])
    ensures OccursFirst(members, a, b)
  {
    var init := members[..|members| - 1];
    var i :| 0 <= i < |init| && init[i].key == a;
    forall j | 0 <= j <= i ensures members[j].key != b {
      assert members[j] == init[j];
      assert init[j].key in Keys(init);
    }
  }

  /** `str(v)` of the Python value a JSON document parses to. An object is
      rendered as the dict `json.loads` builds from it: a repeated key
      appears once, at its first position, with its last value. */
  function Str(j: Json): (r: string)
    ensures j.JNull? ==> r == "None"
    ensures j.JStr? ==> r == j.s
    ensures j.JArr? ==> |r| >= 2 && r[0] == '[' && r[|r| - 1] == ']'
    ensures j.JObj? ==> |r| >= 2 && r[0] == '{' && r[|r| - 1] == '}'
    decreases j, 2
  {
    match j
    case JNull => "None"
    case JBool(b) => if b then "True" else "False"
    case JNum(n) => IntToString(n)
    case JStr(s) => s
    case JArr(items) => "[" + ReprItems(items) + "]"
    case JObj(members) => "{" + ReprDict(members, Keys(members)) + "}"
  }

  /** `repr(v)`, as used for the elements of a list or dict inside `str`. */
  function Repr(j: Json): string
    decreases j, 3
  {
    if j.JStr? then ReprString(j.s) else Str(j)
  }

  function ReprItems(items: seq<Json>): string
    decreases items, 0
  {
    if items == [] then ""
    else if |items| == 1 then Repr(items[0])
    else Repr(items[0]) + ", " + ReprItems(items[1..])
  }

  /** The `key: value` entries of a dict, one per key of `keys`, each key
      written by `repr`. */
  function ReprDict(members: seq<Member>, keys: seq<string>): string
    decreases members, 1, |keys|
  {
    if keys == [] then ""
    else
      var entry := ReprString(keys[0]) + ": " + ReprValue(members, keys[0]);
      if |keys| == 1 then entry else entry + ", " + ReprDict(members, keys[1..])
  }

  /** The rendering of the value the dict holds for `key`. */
  function ReprValue(members: seq<Member>, key: string): string
    decreases members, 0
  {
    match Lookup(members, key)
    case Some(v) => Repr(v)
    case None => "None"
  }

  /** Two objects that build the same dict render the same: `str` sees
      only the dict's keys, in order, and the value each one holds. */
  lemma StrDictView(a: seq<Member>, b: seq<Member>)
    requires Keys(a) == Keys(b)
    requires forall k :: Lookup(a, k) == Lookup(b, k)
    ensures Str(JObj(a)) == Str(JObj(b))
  {
    ReprDictView(a, b, Keys(a));
  }

  lemma {:induction false} ReprDictView(a: seq<Member>, b: seq<Member>, keys: seq<string>)
    requires forall k :: Lookup(a, k) == Lookup(b, k)
    ensures ReprDict(a, keys) == ReprDict(b, keys)
    decreases |keys|
  {
    if keys != [] {
      assert ReprValue(a, keys[0]) == ReprValue(b, keys[0]);
      ReprDictView(a, b, keys[1..]);
    }
  }
}
