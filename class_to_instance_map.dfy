/**
 * A map from classes to instances: a thin wrapper over a hash map whose
 * `put` overwrites in place and whose `getInstance` answers `null` for a
 * class never put.
 */
module ClassToInstance {
  import opened JavaLang

  /** The map that a sequence of `put(type, value)` calls leaves behind, oldest call first. */
  function Replay(puts: seq<(ClassName, Obj)>): map<ClassName, Obj> {
    if puts == [] then map[]
    else Replay(puts[..|puts| - 1])[puts[|puts| - 1].0 := puts[|puts| - 1].1]
  }

  /** The value of the most recent put for `t`, if there was one. */
  function LastPut(puts: seq<(ClassName, Obj)>, t: ClassName): Option<Obj> {
    if puts == [] then None
    else if puts[|puts| - 1].0 == t then Some(puts[|puts| - 1].1)
    else LastPut(puts[..|puts| - 1], t)
  }

  /** Whether `t` was ever put, whatever the value. */
  predicate WasPut(puts: seq<(ClassName, Obj)>, t: ClassName) {
    exists i :: 0 <= i < |puts| && puts[i].0 == t
  }

  /** After any sequence of puts, a class maps to the value of its latest put and to nothing else. */
  lemma {:induction false} ReplayLastWriteWins(puts: seq<(ClassName, Obj)>, t: ClassName)
    ensures t in Replay(puts) <==> LastPut(puts, t).Some?
    ensures t in Replay(puts) ==> Replay(puts)[t] == LastPut(puts, t).value
  {
    if puts != [] {
      ReplayLastWriteWins(puts[..|puts| - 1], t);
    }
  }

  /** A class has a latest put exactly when it was put at least once. */
  lemma {:induction false} LastPutIffWasPut(puts: seq<(ClassName, Obj)>, t: ClassName)
    ensures LastPut(puts, t).Some? <==> WasPut(puts, t)
  {
    if puts != [] {
      var init := puts[..|puts| - 1];
      LastPutIffWasPut(init, t);
      if WasPut(puts, t) && puts[|puts| - 1].0 != t {
        var i :| 0 <= i < |puts| && puts[i].0 == t;
        assert init[i].0 == t;
      }
      if WasPut(init, t) {
        var i :| 0 <= i < |init| && init[i].0 == t;
        assert puts[i].0 == t;
      }
    }
  }

  class ClassToInstanceMap {
    var entries: map<ClassName, Obj>
    /** Every put made so far, oldest first. */
    ghost var puts: seq<(ClassName, Obj)>

    ghost predicate Valid()
      reads this
    {
      entries == Replay(puts)
    }

    constructor ()
      ensures Valid() && puts == [] && entries == map[]
    {
      entries := map[];
      puts := [];
    }

    /** `getInstance`: the value of the latest put for `t`, and `null` for a class never put. */
    function GetInstance(t: ClassName): (r: Obj)
      reads this
      requires Valid()
      ensures LastPut(puts, t).Some? ==> r == LastPut(puts, t).value
      ensures !WasPut(puts, t) ==> r == Null
    {
      ReplayLastWriteWins(puts, t);
      LastPutIffWasPut(puts, t);
      MapGet(entries, t)
    }

    /** `containsKey`: true exactly for the classes that were put, even with a `null` value. */
    function ContainsKey(t: ClassName): (b: bool)
      reads this
      requires Valid()
      ensures b <==> WasPut(puts, t)
    {
      ReplayLastWriteWins(puts, t);
      LastPutIffWasPut(puts, t);
      t in entries
    }

    /** `put`: overwrites the entry for `t` in place and leaves every other class's entry as it was. */
    method Put(t: ClassName, value: Obj)
      requires Valid()
      modifies this
      ensures Valid()
      ensures puts == old(puts) + [(t, value)]
      ensures entries == old(entries)[t := value]
      ensures GetInstance(t) == value && ContainsKey(t)
      ensures forall u :: u != t ==> GetInstance(u) == old(GetInstance(u))
      ensures forall u :: u != t ==> ContainsKey(u) == old(ContainsKey(u))
    {
      entries := entries[t := value];
      puts := puts + [(t, value)];
      assert puts[..|puts| - 1] == old(puts);
    }
  }

  /** A put followed by a second put for the same class: the second value wins and the class stays present. */
  method OverwriteScenario(t: ClassName, u: ClassName, v1: Obj, v2: Obj) returns (seen: Obj, present: bool)
    requires u != t
    ensures seen == v2 && present
  {
    var m := new ClassToInstanceMap();
    m.Put(t, v1);
    m.Put(u, Null);
    m.Put(t, v2);
    seen := m.GetInstance(t);
    present := m.ContainsKey(u) && m.GetInstance(u) == Null;
  }
}
