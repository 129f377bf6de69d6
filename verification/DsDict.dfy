/**
 * `dsdict` of src/common/dstrutils.c:590-709: a dictionary of strings kept as a list of
 * nodes in the order in which the keys were first set, changed in place.
 */
module DsDict {
  import opened Options
  import opened Dstr

  datatype Node = Node(key: string, value: string)

  /** The list as a map; a key is looked up from the front. */
  function ToMap(nodes: seq<Node>): map<string, string> {
    if nodes == [] then map[] else ToMap(nodes[1..])[nodes[0].key := nodes[0].value]
  }

  predicate UniqueKeys(nodes: seq<Node>) {
    forall i, j :: 0 <= i < j < |nodes| ==> nodes[i].key != nodes[j].key
  }

  /** No node before i has the key. */
  predicate NotBefore(nodes: seq<Node>, key: string, i: nat) {
    i <= |nodes| && forall j :: 0 <= j < i ==> nodes[j].key != key
  }

  lemma {:induction false} FoundAt(nodes: seq<Node>, key: string, value: string, i: nat)
    requires NotBefore(nodes, key, i) && i < |nodes| && nodes[i].key == key
    ensures key in ToMap(nodes) && ToMap(nodes)[key] == nodes[i].value
    ensures ToMap(nodes[i := Node(key, value)]) == ToMap(nodes)[key := value]
  {
    var updated := nodes[i := Node(key, value)];
    if i == 0 {
      assert updated[1..] == nodes[1..];
    } else {
      FoundAt(nodes[1..], key, value, i - 1);
      assert updated[1..] == nodes[1..][i - 1 := Node(key, value)];
    }
  }

  lemma {:induction false} NotFound(nodes: seq<Node>, key: string, value: string)
    requires NotBefore(nodes, key, |nodes|)
    ensures key !in ToMap(nodes)
    ensures ToMap(nodes + [Node(key, value)]) == ToMap(nodes)[key := value]
  {
    if nodes != [] {
      NotFound(nodes[1..], key, value);
      assert (nodes + [Node(key, value)])[1..] == nodes[1..] + [Node(key, value)];
    } else {
      assert (nodes + [Node(key, value)])[1..] == [];
    }
  }

  lemma {:induction false} ErasedAt(nodes: seq<Node>, i: nat)
    requires UniqueKeys(nodes) && i < |nodes|
    ensures ToMap(nodes[..i] + nodes[i + 1..]) == ToMap(nodes) - {nodes[i].key}
  {
    var erased := nodes[..i] + nodes[i + 1..];
    if i == 0 {
      assert erased == nodes[1..];
      NotFound(nodes[1..], nodes[0].key, "");
    } else {
      ErasedAt(nodes[1..], i - 1);
      assert erased[1..] == nodes[1..][..i - 1] + nodes[1..][i..];
    }
  }

  class DsDict {
    var nodes: seq<Node>

    ghost predicate Valid()
      reads this
    {
      UniqueKeys(nodes)
    }

    ghost function View(): map<string, string>
      reads this
    {
      ToMap(nodes)
    }

    /** `dsdict_new`. */
    constructor ()
      ensures Valid() && View() == map[]
    {
      nodes := [];
    }

    /** `dsdict_iter`: the place of the key, or the end of the list. */
    method Iter(key: string) returns (i: nat)
      ensures NotBefore(nodes, key, i)
      ensures i < |nodes| ==> nodes[i].key == key
    {
      i := 0;
      while i < |nodes|
        invariant NotBefore(nodes, key, i)
      {
        if Cmp(nodes[i].key, key) == 0 {
          return;
        }
        i := i + 1;
      }
    }

    /** `dsdict_set`. */
    method Set(key: string, value: string)
      requires Valid()
      modifies this
      ensures Valid() && View() == old(View())[key := value]
      ensures |old(nodes)| <= |nodes| && forall j :: 0 <= j < |old(nodes)| ==> nodes[j].key == old(nodes)[j].key
    {
      var i := Iter(key);
      if i < |nodes| {
        FoundAt(nodes, key, value, i);
        nodes := nodes[i := nodes[i].(value := value)];
      } else {
        NotFound(nodes, key, value);
        nodes := nodes + [Node(key, value)];
      }
    }

    /** `dsdict_get`; None for a key that is not there. */
    method Get(key: string) returns (value: Option<string>)
      ensures value == Lookup(View(), key)
    {
      var i := Iter(key);
      if i < |nodes| {
        FoundAt(nodes, key, "", i);
        return Some(nodes[i].value);
      }
      NotFound(nodes, key, "");
      return None;
    }

    /** `dsdict_remove`. */
    method Remove(key: string)
      requires Valid()
      modifies this
      ensures Valid() && View() == old(View()) - {key}
    {
      var i := Iter(key);
      if i < |nodes| {
        ErasedAt(nodes, i);
        nodes := nodes[..i] + nodes[i + 1..];
      } else {
        NotFound(nodes, key, "");
      }
    }
  }
}
