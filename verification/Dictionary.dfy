/**
 * The server's dictionaries, `DataDict` of src/network/svcenet/server/main.c:52-152: a list
 * of nodes with a dirty flag each, kept in the order in which their keys were first set.
 */
module Dictionary {
  import opened Dstr

  datatype Node = Node(key: string, value: string, dirty: bool)

  type Dict = seq<Node>

  /** `dd_set`: overwrite the node of the key, or append a new one; either way it is dirty. */
  function Set(d: Dict, key: string, value: string): Dict {
    if d == [] then [Node(key, value, true)]
    else if d[0].key == key then [Node(key, value, true)] + d[1..]
    else [d[0]] + Set(d[1..], key, value)
  }

  /** `dd_get`: the empty string stands for a key that was never set. */
  function Get(d: Dict, key: string): string {
    if d == [] then ""
    else if d[0].key == key then d[0].value
    else Get(d[1..], key)
  }

  /** The dictionary as a map. */
  function ToMap(d: Dict): map<string, string> {
    if d == [] then map[] else ToMap(d[1..])[d[0].key := d[0].value]
  }

  predicate UniqueKeys(d: Dict) {
    forall i, j :: 0 <= i < j < |d| ==> d[i].key != d[j].key
  }

  predicate CKeys(d: Dict) {
    forall i :: 0 <= i < |d| ==> '\0' !in d[i].key
  }

  predicate Clean(d: Dict) {
    forall i :: 0 <= i < |d| ==> !d[i].dirty
  }

  /** The dictionary after its modified entries were sent. */
  function Flushed(d: Dict): (r: Dict)
    ensures |r| == |d|
    ensures forall i :: 0 <= i < |d| ==> r[i] == d[i].(dirty := false)
  {
    seq(|d|, i requires 0 <= i < |d| => d[i].(dirty := false))
  }

  lemma {:induction false} ToMapKeys(d: Dict, key: string)
    ensures key in ToMap(d) <==> exists i :: 0 <= i < |d| && d[i].key == key
  {
    if d != [] {
      ToMapKeys(d[1..], key);
      if key in ToMap(d[1..]) {
        var i :| 0 <= i < |d[1..]| && d[1..][i].key == key;
        assert d[i + 1].key == key;
      } else if exists i :: 0 <= i < |d| && d[i].key == key {
        var i :| 0 <= i < |d| && d[i].key == key;
        if i > 0 { assert d[1..][i - 1].key == key; }
      }
    }
  }

  lemma {:induction false} ToMapEntry(d: Dict, i: nat)
    requires UniqueKeys(d) && i < |d|
    ensures d[i].key in ToMap(d) && ToMap(d)[d[i].key] == d[i].value
  {
    if i > 0 {
      ToMapEntry(d[1..], i - 1);
    }
  }

  /** Setting a key leaves keys unique and every other node as it is; the node of the key is
      dirty. */
  lemma {:induction false} SetNodes(d: Dict, key: string, value: string)
    requires UniqueKeys(d)
    ensures UniqueKeys(Set(d, key, value))
    ensures CKeys(d) && '\0' !in key ==> CKeys(Set(d, key, value))
    ensures forall i :: 0 <= i < |Set(d, key, value)| ==>
              if Set(d, key, value)[i].key == key then Set(d, key, value)[i] == Node(key, value, true)
              else i < |d| && Set(d, key, value)[i] == d[i]
  {
    var r := Set(d, key, value);
    if d != [] && d[0].key != key {
      var rest := Set(d[1..], key, value);
      SetNodes(d[1..], key, value);
      forall i | 0 <= i < |rest|
        ensures rest[i].key != d[0].key
      {
        if rest[i].key != key { assert rest[i] == d[1..][i] == d[i + 1]; }
      }
      assert forall i :: 0 < i < |r| ==> r[i] == rest[i - 1];
      forall i | 0 < i < |r| && r[i].key != key
        ensures i < |d| && r[i] == d[i]
      {
        assert rest[i - 1] == d[1..][i - 1];
      }
    }
  }

  /** Setting a key changes that entry of the map and nothing else. */
  lemma {:induction false} SetIsMapUpdate(d: Dict, key: string, value: string)
    ensures ToMap(Set(d, key, value)) == ToMap(d)[key := value]
  {
    if d != [] && d[0].key != key {
      var rest := Set(d[1..], key, value);
      SetIsMapUpdate(d[1..], key, value);
      assert Set(d, key, value)[1..] == rest;
    } else if d != [] {
      assert ToMap(d[1..])[key := value] == ToMap(d)[key := value];
    }
  }

  /** `dd_get` reads the map, so it returns what the last `dd_set` of the key stored. */
  lemma {:induction false} GetIsLookup(d: Dict, key: string)
    ensures Get(d, key) == if key in ToMap(d) then ToMap(d)[key] else ""
  {
    if d != [] && d[0].key != key {
      GetIsLookup(d[1..], key);
    }
  }

  // ----- what is sent of a dictionary -----

  datatype Entry = Entry(key: string, value: string)

  /** The entries sent: all of them in a snapshot, the dirty ones in an update. */
  function Sent(d: Dict, all: bool): seq<Entry> {
    if d == [] then []
    else (if all || d[0].dirty then [Entry(d[0].key, d[0].value)] else []) + Sent(d[1..], all)
  }

  /** Each node is sent once or not at all, in the order of the list. */
  lemma {:induction false} SentInOrder(a: Dict, b: Dict, all: bool)
    ensures Sent(a + b, all) == Sent(a, all) + Sent(b, all)
    ensures a != [] ==> Sent([a[0]], all) == if all || a[0].dirty then [Entry(a[0].key, a[0].value)] else []
    decreases |a|
  {
    if a == [] {
      assert a + b == b;
    } else {
      SentInOrder(a[1..], b, all);
      assert (a + b)[1..] == a[1..] + b;
      assert [a[0]][1..] == [];
    }
  }

  /** What a copy of a dictionary becomes on receiving entries one by one. */
  function Receive(m: map<string, string>, entries: seq<Entry>): map<string, string>
    decreases |entries|
  {
    if entries == [] then m else Receive(m[entries[0].key := entries[0].value], entries[1..])
  }

  /** A copy that knows every clean entry and no key of its own. */
  ghost predicate Agrees(m: map<string, string>, d: Dict) {
    && (forall i :: 0 <= i < |d| && !d[i].dirty ==> d[i].key in m && m[d[i].key] == d[i].value)
    && m.Keys <= ToMap(d).Keys
  }

  lemma {:induction false} ReceiveSent(m: map<string, string>, d: Dict, all: bool)
    requires UniqueKeys(d)
    requires forall i :: 0 <= i < |d| && !all && !d[i].dirty ==> d[i].key in m && m[d[i].key] == d[i].value
    ensures Receive(m, Sent(d, all)) == m + ToMap(d)
    decreases |d|
  {
    if d != [] {
      var n := d[0];
      ToMapKeys(d[1..], n.key);
      if all || n.dirty {
        var m1 := m[n.key := n.value];
        assert Sent(d, all)[0] == Entry(n.key, n.value) && Sent(d, all)[1..] == Sent(d[1..], all);
        ReceiveSent(m1, d[1..], all);
        assert m1 + ToMap(d[1..]) == m + ToMap(d);
      } else {
        assert [] + Sent(d[1..], all) == Sent(d[1..], all);
        ReceiveSent(m, d[1..], all);
        assert m + ToMap(d[1..]) == m + ToMap(d);
      }
    }
  }

  /** A snapshot copies the dictionary. */
  lemma ReceiveSnapshot(d: Dict)
    requires UniqueKeys(d)
    ensures Receive(map[], Sent(d, true)) == ToMap(d)
  {
    ReceiveSent(map[], d, true);
  }

  /** The dirty entries bring an agreeing copy up to date. */
  lemma ReceiveUpdate(m: map<string, string>, d: Dict)
    requires UniqueKeys(d) && Agrees(m, d)
    ensures Receive(m, Sent(d, false)) == ToMap(d)
  {
    ReceiveSent(m, d, false);
  }

  /** A set leaves every copy in agreement, since the entry it touches is dirty. */
  lemma SetAgrees(m: map<string, string>, d: Dict, key: string, value: string)
    requires UniqueKeys(d) && Agrees(m, d)
    ensures Agrees(m, Set(d, key, value))
  {
    SetNodes(d, key, value);
    SetIsMapUpdate(d, key, value);
  }

  lemma {:induction false} FlushedToMap(d: Dict)
    ensures ToMap(Flushed(d)) == ToMap(d)
  {
    if d != [] {
      assert Flushed(d)[1..] == Flushed(d[1..]);
      FlushedToMap(d[1..]);
    }
  }

  /** A copy agrees with a clean dictionary exactly when it is equal to it. */
  lemma AgreesWhenClean(m: map<string, string>, d: Dict)
    requires UniqueKeys(d) && Clean(d)
    ensures Agrees(m, d) <==> m == ToMap(d)
  {
    forall key | key in ToMap(d)
      ensures exists i :: 0 <= i < |d| && d[i].key == key && ToMap(d)[key] == d[i].value
    {
      ToMapKeys(d, key);
      var i :| 0 <= i < |d| && d[i].key == key;
      ToMapEntry(d, i);
    }
    forall i | 0 <= i < |d|
      ensures d[i].key in ToMap(d) && ToMap(d)[d[i].key] == d[i].value
    {
      ToMapEntry(d, i);
    }
  }

  lemma ExactAgrees(d: Dict)
    requires UniqueKeys(d)
    ensures Agrees(ToMap(d), d)
  {
  }
}
