/**
 * The variable store of xsh: a fixed table of (key, value) pairs, `env_vars[0..env_count)`,
 * searched front to back, updated in place by `set` and compacted by `unset`.
 */
module Store {
  import opened Wrappers

  /** Capacity of the table (`MAX_ARGS`). */
  const MaxVars: nat := 100

  datatype EnvVar = EnvVar(key: string, value: string)

  /** No key occurs twice in the table. */
  predicate UniqueKeys(vars: seq<EnvVar>) {
    forall i, j :: 0 <= i < j < |vars| ==> vars[i].key != vars[j].key
  }

  /** The first slot whose key is `key`, as the `strcmp` scans of both builtins find it. */
  function Find(vars: seq<EnvVar>, key: string): (r: Option<nat>)
    ensures r.Some? ==> r.value < |vars| && vars[r.value].key == key
    ensures r.Some? ==> forall j :: 0 <= j < r.value ==> vars[j].key != key
    ensures r.None? <==> forall j :: 0 <= j < |vars| ==> vars[j].key != key
    decreases |vars|
  {
    if vars == [] then None
    else if vars[0].key == key then Some(0)
    else match Find(vars[1..], key)
      case None => None
      case Some(i) => Some(i + 1)
  }

  /** The value bound to `key`, if any. */
  function Lookup(vars: seq<EnvVar>, key: string): (r: Option<string>)
    ensures r.Some? <==> exists j :: 0 <= j < |vars| && vars[j].key == key
  {
    match Find(vars, key)
    case None => None
    case Some(i) => Some(vars[i].value)
  }

  /** `set` can proceed without writing past the table: the key is present or a slot is free. */
  predicate Fits(vars: seq<EnvVar>, key: string) {
    Find(vars, key).Some? || |vars| < MaxVars
  }

  /** The table after `set key value`: the value of an existing key is replaced in place, otherwise the pair is appended. */
  function SetBinding(vars: seq<EnvVar>, key: string, value: string): seq<EnvVar> {
    match Find(vars, key)
    case Some(i) => vars[i := vars[i].(value := value)]
    case None => vars + [EnvVar(key, value)]
  }

  /** The table with entry `i` removed and the entries after it moved down one place. */
  function Cut(vars: seq<EnvVar>, i: nat): seq<EnvVar>
    requires i < |vars|
  {
    vars[..i] + vars[i + 1..]
  }

  /** The table after `unset key`: the pair is cut out and the tail closes up, or nothing changes. */
  function UnsetBinding(vars: seq<EnvVar>, key: string): seq<EnvVar> {
    match Find(vars, key)
    case Some(i) => Cut(vars, i)
    case None => vars
  }

  /** `set` of a key the table lacks puts it in the new last slot. */
  lemma FindAppended(vars: seq<EnvVar>, e: EnvVar)
    requires Find(vars, e.key).None?
    ensures Find(vars + [e], e.key) == Some(|vars|)
  {
    var s := vars + [e];
    assert s[|vars|] == e;
    assert forall j :: 0 <= j < |vars| ==> s[j] == vars[j];
  }

  /** `set` on a present key rewrites that entry's value and nothing else. */
  lemma SetExisting(vars: seq<EnvVar>, key: string, value: string, i: nat)
    requires i < |vars| && vars[i].key == key
    requires UniqueKeys(vars)
    ensures |SetBinding(vars, key, value)| == |vars|
    ensures SetBinding(vars, key, value)[i] == EnvVar(key, value)
    ensures forall j :: 0 <= j < |vars| && j != i ==> SetBinding(vars, key, value)[j] == vars[j]
  {
    assert Find(vars, key) == Some(i);
  }

  /** `set` on an absent key appends exactly one pair after all existing ones. */
  lemma SetAbsent(vars: seq<EnvVar>, key: string, value: string)
    requires Lookup(vars, key).None?
    ensures SetBinding(vars, key, value) == vars + [EnvVar(key, value)]
  {
  }

  /** `set` keeps keys unique and never changes the count by more than one. */
  lemma SetKeepsUnique(vars: seq<EnvVar>, key: string, value: string)
    requires UniqueKeys(vars)
    ensures UniqueKeys(SetBinding(vars, key, value))
    ensures |SetBinding(vars, key, value)| == |vars| + (if Lookup(vars, key).Some? then 0 else 1)
  {
  }

  /** After `set key value`, looking up `key` yields `value`; every other key keeps its binding. */
  lemma LookupAfterSet(vars: seq<EnvVar>, key: string, value: string, other: string)
    requires UniqueKeys(vars)
    ensures Lookup(SetBinding(vars, key, value), key) == Some(value)
    ensures other != key ==> Lookup(SetBinding(vars, key, value), other) == Lookup(vars, other)
  {
    var r := SetBinding(vars, key, value);
    SetKeepsUnique(vars, key, value);
    match Find(vars, key)
    case Some(i) =>
      assert r[i].key == key;
      assert Find(r, key) == Some(i);
      if other != key {
        match Find(vars, other)
        case Some(k) =>
          assert r[k] == vars[k];
          assert Find(r, other) == Some(k);
        case None =>
          assert Find(r, other) == None;
      }
    case None =>
      assert r[|vars|].key == key;
      assert Find(r, key) == Some(|vars|);
      if other != key {
        match Find(vars, other)
        case Some(k) =>
          assert r[k] == vars[k];
          assert Find(r, other) == Some(k);
        case None =>
          assert Find(r, other) == None;
      }
  }

  /** `unset` removes exactly the matching entry and keeps the order of the others. */
  lemma UnsetPresent(vars: seq<EnvVar>, key: string, i: nat)
    requires i < |vars| && vars[i].key == key
    requires UniqueKeys(vars)
    ensures |UnsetBinding(vars, key)| == |vars| - 1
    ensures forall j :: 0 <= j < i ==> UnsetBinding(vars, key)[j] == vars[j]
    ensures forall j :: i <= j < |vars| - 1 ==> UnsetBinding(vars, key)[j] == vars[j + 1]
  {
    assert Find(vars, key) == Some(i);
  }

  /** Unsetting a key that is not in the table changes nothing. */
  lemma UnsetAbsent(vars: seq<EnvVar>, key: string)
    requires Lookup(vars, key).None?
    ensures UnsetBinding(vars, key) == vars
  {
  }

  /** Under unique keys, the entry holding `key` is the one every lookup finds. */
  lemma LookupAt(vars: seq<EnvVar>, key: string, i: nat)
    requires UniqueKeys(vars) && i < |vars| && vars[i].key == key
    ensures Lookup(vars, key) == Some(vars[i].value)
  {
    assert Find(vars, key) == Some(i);
  }

  /** The table with entry `i` cut out keeps unique keys; entries before `i` stay, later ones move down by one. */
  lemma CutAt(vars: seq<EnvVar>, i: nat)
    requires UniqueKeys(vars) && i < |vars|
    ensures |Cut(vars, i)| == |vars| - 1
    ensures forall j :: 0 <= j < i ==> Cut(vars, i)[j] == vars[j]
    ensures forall j :: i <= j < |vars| - 1 ==> Cut(vars, i)[j] == vars[j + 1]
    ensures UniqueKeys(Cut(vars, i))
  {
    var r := Cut(vars, i);
    forall a, b | 0 <= a < b < |r| ensures r[a].key != r[b].key {
      var a' := if a < i then a else a + 1;
      var b' := if b < i then b else b + 1;
      assert r[a] == vars[a'] && r[b] == vars[b'] && a' < b';
    }
  }

  /** A table whose entries before `i` are unchanged and whose later entries are each taken from one slot further on is the cut at `i`. */
  lemma ShiftedIsCut(a: seq<EnvVar>, before: seq<EnvVar>, i: nat)
    requires i < |before| && |a| == |before| - 1
    requires forall k :: 0 <= k < i ==> a[k] == before[k]
    requires forall k :: i <= k < |a| ==> a[k] == before[k + 1]
    ensures a == Cut(before, i)
  {
  }

  /** `unset` keeps keys unique, and afterwards the key is gone while every other key keeps its binding. */
  lemma LookupAfterUnset(vars: seq<EnvVar>, key: string, other: string)
    requires UniqueKeys(vars)
    ensures UniqueKeys(UnsetBinding(vars, key))
    ensures Lookup(UnsetBinding(vars, key), key).None?
    ensures other != key ==> Lookup(UnsetBinding(vars, key), other) == Lookup(vars, other)
  {
    var r := UnsetBinding(vars, key);
    match Find(vars, key)
    case None =>
    case Some(i) =>
      CutAt(vars, i);
      assert forall j :: 0 <= j < |r| ==> r[j].key != key by {
        forall j | 0 <= j < |r| ensures r[j].key != key {
          if j >= i { assert r[j] == vars[j + 1]; }
        }
      }
      if other != key {
        match Find(vars, other)
        case Some(k) =>
          var k' := if k < i then k else k - 1;
          assert r[k'] == vars[k];
          LookupAt(r, other, k');
        case None =>
          forall j | 0 <= j < |r| ensures r[j].key != other {
            if j >= i { assert r[j] == vars[j + 1]; }
          }
      }
  }

  /** `set` of a fresh key followed by `unset` of it restores the table exactly. */
  lemma UnsetUndoesFreshSet(vars: seq<EnvVar>, key: string, value: string)
    requires Lookup(vars, key).None?
    ensures UnsetBinding(SetBinding(vars, key, value), key) == vars
  {
    var s := SetBinding(vars, key, value);
    FindAppended(vars, EnvVar(key, value));
    assert s[..|vars|] == vars;
  }

  /** A second `set` of the same key overrides the first without adding an entry. */
  lemma SetTwice(vars: seq<EnvVar>, key: string, v1: string, v2: string)
    ensures SetBinding(SetBinding(vars, key, v1), key, v2) == SetBinding(vars, key, v2)
  {
    var s := SetBinding(vars, key, v1);
    match Find(vars, key)
    case Some(i) =>
      assert s[i].key == key;
      assert Find(s, key) == Some(i);
    case None =>
      FindAppended(vars, EnvVar(key, v1));
  }

  /**
   * The table itself: `vars[0..count)` holds the bindings in insertion order;
   * slots from `count` on hold whatever was last written there.
   */
  class Env {
    var vars: array<EnvVar>
    var count: nat

    ghost predicate Valid()
      reads this, vars
    {
      vars.Length == MaxVars && count <= MaxVars && UniqueKeys(vars[..count])
    }

    /** The bindings currently in the table, in order. */
    function Bindings(): seq<EnvVar>
      reads this, vars
      requires Valid()
    {
      vars[..count]
    }

    /** The table is empty at start-up. */
    constructor ()
      ensures Valid() && fresh(vars) && Bindings() == []
    {
      vars := new EnvVar[MaxVars](_ => EnvVar("", ""));
      count := 0;
    }

    /** The scan both builtins start with: the first slot, below `count`, whose key is `key`. */
    method Search(key: string) returns (r: Option<nat>)
      requires Valid()
      ensures r == Find(Bindings(), key)
    {
      var i := 0;
      while i < count
        invariant 0 <= i <= count
        invariant forall j :: 0 <= j < i ==> vars[j].key != key
      {
        if vars[i].key == key {
          return Some(i);
        }
        i := i + 1;
      }
      return None;
    }

    /** `handle_set`: overwrite the value of the slot holding the key, or append the pair at `count`. */
    method Set(key: string, value: string)
      requires Valid() && Fits(Bindings(), key)
      modifies this, vars
      ensures Valid() && vars == old(vars)
      ensures Bindings() == SetBinding(old(Bindings()), key, value)
    {
      ghost var before := Bindings();
      SetKeepsUnique(before, key, value);
      var found := Search(key);
      if found.Some? {
        var i := found.value;
        vars[i] := vars[i].(value := value);
        assert Bindings() == before[i := before[i].(value := value)];
      } else {
        vars[count] := EnvVar(key, value);
        count := count + 1;
        assert Bindings() == before + [EnvVar(key, value)];
      }
    }

    /** `handle_unset`: shift the entries after the slot holding the key one place left and shrink the count. */
    method Unset(key: string)
      requires Valid()
      modifies this, vars
      ensures Valid() && vars == old(vars)
      ensures Bindings() == UnsetBinding(old(Bindings()), key)
    {
      ghost var before := Bindings();
      var found := Search(key);
      if found.None? {
        return;
      }
      var i := found.value;
      ShiftDown(i);
      count := count - 1;
      ShiftedIsCut(vars[..count], before, i);
      CutAt(before, i);
      assert UnsetBinding(before, key) == Cut(before, i);
    }

    /** The inner loop of `handle_unset`: move each entry after slot `i` one slot towards the front. */
    method ShiftDown(i: nat)
      requires i < count <= vars.Length
      modifies vars
      ensures forall k :: 0 <= k < i ==> vars[k] == old(vars[k])
      ensures forall k :: i <= k < count - 1 ==> vars[k] == old(vars[k + 1])
      ensures forall k :: count - 1 <= k < vars.Length ==> vars[k] == old(vars[k])
    {
      var j := i;
      while j < count - 1
        invariant i <= j <= count - 1
        invariant forall k :: 0 <= k < i ==> vars[k] == old(vars[k])
        invariant forall k :: i <= k < j ==> vars[k] == old(vars[k + 1])
        invariant forall k :: j <= k < vars.Length ==> vars[k] == old(vars[k])
      {
        vars[j] := vars[j + 1];
        j := j + 1;
      }
    }

    /** The copy of the table a child process gets from `fork`. */
    method Clone() returns (c: Env)
      requires Valid()
      ensures fresh(c) && fresh(c.vars) && c.Valid() && c.Bindings() == Bindings()
    {
      c := new Env();
      var i := 0;
      while i < MaxVars
        invariant 0 <= i <= MaxVars && fresh(c) && fresh(c.vars) && c.vars.Length == MaxVars
        invariant forall k :: 0 <= k < i ==> c.vars[k] == vars[k]
      {
        c.vars[i] := vars[i];
        i := i + 1;
      }
      c.count := count;
      assert c.vars[..count] == vars[..count];
    }
  }
}
