/**
 * Arbitrary "default" instances for a type: a registry of default values and
 * of type-to-implementation substitutions, and a lookup that tries, in a fixed
 * order, the default, the registered implementation, the empty stream, the
 * first enum constant, an empty array, a public static final constant and the
 * public no-argument constructor.
 */
module Arbitrary {
  import opened JavaLang
  import opened ClassToInstance

  // ---------------------------------------------------------------------------
  // Field order: `String.compareTo` on field names (UTF-16), and the sort by that order
  // ---------------------------------------------------------------------------

  /** The UTF-16 code units of one character: itself, or a surrogate pair above U+FFFF. */
  function CodeUnits(c: char): (u: seq<int>)
    ensures 1 <= |u| <= 2 && forall k :: 0 <= k < |u| ==> 0 <= u[k] < 0x1_0000
    ensures |u| == 1 <==> (c as int) < 0x1_0000
    ensures |u| == 1 ==> u[0] == c as int && !(0xD800 <= u[0] < 0xE000)
    ensures |u| == 2 ==> 0xD800 <= u[0] < 0xDC00 && 0xDC00 <= u[1] < 0xE000 &&
                         (c as int) == 0x1_0000 + (u[0] - 0xD800) * 0x400 + (u[1] - 0xDC00)
  {
    var v := c as int;
    if v < 0x1_0000 then [v]
    else [0xD800 + (v - 0x1_0000) / 0x400, 0xDC00 + (v - 0x1_0000) % 0x400]
  }

  /** A Java string's contents: the UTF-16 code units of its characters, in order. */
  function Utf16(s: string): (u: seq<int>)
    ensures |s| <= |u| <= 2 * |s|
    ensures (forall i :: 0 <= i < |s| ==> (s[i] as int) < 0x1_0000) ==>
              |u| == |s| && forall i :: 0 <= i < |s| ==> u[i] == s[i] as int
  {
    if s == [] then [] else CodeUnits(s[0]) + Utf16(s[1..])
  }

  /** The units of one character can be told apart from whatever follows them. */
  lemma CodeUnitsPrefix(c: char, d: char, x: seq<int>, y: seq<int>)
    requires CodeUnits(c) + x == CodeUnits(d) + y
    ensures c == d && x == y
  {
    var u, v := CodeUnits(c), CodeUnits(d);
    assert u[0] == (u + x)[0] == (v + y)[0] == v[0];
    if |u| == 2 {
      assert u[1] == (u + x)[1] == (v + y)[1] == v[1];
    }
    assert x == (u + x)[|u|..] == (v + y)[|v|..] == y;
  }

  /** Different names have different UTF-16 contents. */
  lemma {:induction false} Utf16Injective(a: string, b: string)
    requires Utf16(a) == Utf16(b)
    ensures a == b
  {
    if a != [] && b != [] {
      CodeUnitsPrefix(a[0], b[0], Utf16(a[1..]), Utf16(b[1..]));
      Utf16Injective(a[1..], b[1..]);
      assert a == [a[0]] + a[1..] && b == [b[0]] + b[1..];
    }
  }

  /** Lexicographic order on code units, a proper prefix first. */
  predicate UnitsLe(a: seq<int>, b: seq<int>) {
    if a == [] then true
    else if b == [] then false
    else if a[0] != b[0] then a[0] < b[0]
    else UnitsLe(a[1..], b[1..])
  }

  lemma {:induction false} UnitsLeTotal(a: seq<int>, b: seq<int>)
    ensures UnitsLe(a, b) || UnitsLe(b, a)
  {
    if a != [] && b != [] && a[0] == b[0] {
      UnitsLeTotal(a[1..], b[1..]);
    }
  }

  lemma {:induction false} UnitsLeTransitive(a: seq<int>, b: seq<int>, c: seq<int>)
    requires UnitsLe(a, b) && UnitsLe(b, c)
    ensures UnitsLe(a, c)
  {
    if a != [] && b != [] && c != [] && a[0] == b[0] && b[0] == c[0] {
      UnitsLeTransitive(a[1..], b[1..], c[1..]);
    }
  }

  lemma {:induction false} UnitsLeAntisymmetric(a: seq<int>, b: seq<int>)
    requires UnitsLe(a, b) && UnitsLe(b, a)
    ensures a == b
  {
    if a != [] && b != [] {
      UnitsLeAntisymmetric(a[1..], b[1..]);
      assert a == [a[0]] + a[1..] && b == [b[0]] + b[1..];
    }
  }

  /** `a.compareTo(b) <= 0`: `String.compareTo` compares UTF-16 code units, not characters. */
  predicate NameLe(a: string, b: string) {
    UnitsLe(Utf16(a), Utf16(b))
  }

  lemma NameLeTotal(a: string, b: string)
    ensures NameLe(a, b) || NameLe(b, a)
  {
    UnitsLeTotal(Utf16(a), Utf16(b));
  }

  lemma NameLeTransitive(a: string, b: string, c: string)
    requires NameLe(a, b) && NameLe(b, c)
    ensures NameLe(a, c)
  {
    UnitsLeTransitive(Utf16(a), Utf16(b), Utf16(c));
  }

  /** Two names that are each at most the other are the same name, so the least name is unique. */
  lemma NameLeAntisymmetric(a: string, b: string)
    requires NameLe(a, b) && NameLe(b, a)
    ensures a == b
  {
    UnitsLeAntisymmetric(Utf16(a), Utf16(b));
    Utf16Injective(a, b);
  }

  /**
   * The code-unit order is not the character order: U+1D400 is encoded with the high
   * surrogate 0xD835, so it sorts before U+FF21 although it is the larger character.
   */
  lemma SupplementarySortsBeforeHighBmp()
    ensures NameLe("\U{1D400}", "\U{FF21}") && !NameLe("\U{FF21}", "\U{1D400}")
    ensures '\U{FF21}' < '\U{1D400}'
  {
    assert Utf16("\U{1D400}") == [0xD835, 0xDC00];
    assert Utf16("\U{FF21}") == [0xFF21];
  }

  /** Below U+FFFF, the code-unit order of two single characters is their character order. */
  lemma BmpOrderIsCharOrder(a: char, b: char)
    requires (a as int) < 0x1_0000 && (b as int) < 0x1_0000
    ensures NameLe([a], [b]) <==> a <= b
  {
    assert Utf16([a]) == [a as int] by { assert [a][1..] == []; }
    assert Utf16([b]) == [b as int] by { assert [b][1..] == []; }
    assert UnitsLe([a as int], [b as int]) <==> (a as int) <= (b as int) by {
      assert [a as int][1..] == [] && [b as int][1..] == [];
    }
  }

  ghost predicate SortedByName(fs: seq<Field>) {
    forall i, j :: 0 <= i < j < |fs| ==> NameLe(fs[i].name, fs[j].name)
  }

  function InsertByName(f: Field, fs: seq<Field>): seq<Field> {
    if fs == [] then [f]
    else if NameLe(f.name, fs[0].name) then [f] + fs
    else [fs[0]] + InsertByName(f, fs[1..])
  }

  /** The order `Arrays.sort(fields, BY_FIELD_NAME)` leaves the fields in. */
  function SortByName(fs: seq<Field>): seq<Field> {
    if fs == [] then [] else InsertByName(fs[0], SortByName(fs[1..]))
  }

  lemma {:induction false} InsertByNamePermutes(f: Field, fs: seq<Field>)
    ensures multiset(InsertByName(f, fs)) == multiset(fs) + multiset{f}
  {
    if fs != [] && !NameLe(f.name, fs[0].name) {
      InsertByNamePermutes(f, fs[1..]);
      assert fs == [fs[0]] + fs[1..];
    }
  }

  lemma ConsSorted(f: Field, fs: seq<Field>)
    requires SortedByName(fs)
    requires forall k :: 0 <= k < |fs| ==> NameLe(f.name, fs[k].name)
    ensures SortedByName([f] + fs)
  {
    var r := [f] + fs;
    forall i, j | 0 <= i < j < |r| ensures NameLe(r[i].name, r[j].name) {
      assert r[j] == fs[j - 1];
      if i > 0 {
        assert r[i] == fs[i - 1];
      }
    }
  }

  lemma {:induction false} InsertByNameSorted(f: Field, fs: seq<Field>)
    requires SortedByName(fs)
    ensures SortedByName(InsertByName(f, fs))
  {
    if fs == [] {
    } else if NameLe(f.name, fs[0].name) {
      forall k | 0 <= k < |fs| ensures NameLe(f.name, fs[k].name) {
        if k > 0 {
          NameLeTransitive(f.name, fs[0].name, fs[k].name);
        }
      }
      ConsSorted(f, fs);
    } else {
      var rest := InsertByName(f, fs[1..]);
      InsertByNameSorted(f, fs[1..]);
      InsertByNamePermutes(f, fs[1..]);
      NameLeTotal(f.name, fs[0].name);
      forall k | 0 <= k < |rest| ensures NameLe(fs[0].name, rest[k].name) {
        assert rest[k] in multiset(rest);
        if rest[k] != f {
          assert rest[k] in multiset(fs[1..]);
          var m :| 0 <= m < |fs[1..]| && fs[1..][m] == rest[k];
          assert fs[m + 1] == rest[k];
        }
      }
      ConsSorted(fs[0], rest);
    }
  }

  /** The sort is a permutation of the declared fields, in name order. */
  lemma {:induction false} SortByNameCorrect(fs: seq<Field>)
    ensures multiset(SortByName(fs)) == multiset(fs)
    ensures SortedByName(SortByName(fs))
  {
    if fs != [] {
      SortByNameCorrect(fs[1..]);
      InsertByNamePermutes(fs[0], SortByName(fs[1..]));
      InsertByNameSorted(fs[0], SortByName(fs[1..]));
      assert fs == [fs[0]] + fs[1..];
    }
  }

  // ---------------------------------------------------------------------------
  // arbitraryConstantInstanceOrNull
  // ---------------------------------------------------------------------------

  /** A field whose value may serve as the arbitrary constant of its declaring type. */
  predicate Eligible(f: Field) {
    f.isPublic && f.isStatic && f.isFinal && f.genericTypeIsRaw && f.typeAssignableToOwner
  }

  /** A field that the scan stops at: eligible and holding a non-null value. */
  predicate Yields(f: Field) {
    Eligible(f) && f.value != Null
  }

  function FirstConstant(fs: seq<Field>): Obj {
    if fs == [] then Null
    else if Yields(fs[0]) then fs[0].value
    else FirstConstant(fs[1..])
  }

  /** The value `arbitraryConstantInstanceOrNull` returns for `t`. */
  function ConstantInstance(t: ClassInfo): Obj {
    FirstConstant(SortByName(t.fields))
  }

  /**
   * `arbitraryConstantInstanceOrNull`: sorts the declared fields by name and returns
   * the value of the first public static final, non-generic field assignable to `t`
   * whose value is not null; `null` when there is none.
   */
  method ArbitraryConstantInstanceOrNull(t: ClassInfo) returns (r: Obj)
    ensures r == ConstantInstance(t)
    ensures r == Null <==> forall f :: f in t.fields ==> !Yields(f)
    ensures r != Null ==> exists f :: f in t.fields && Yields(f) && f.value == r &&
                                      forall g :: g in t.fields && Yields(g) ==> NameLe(f.name, g.name)
  {
    var fields := SortByName(t.fields);
    SortByNameCorrect(t.fields);
    assert forall f :: f in fields <==> f in t.fields by {
      forall f ensures f in fields <==> f in t.fields {
        assert f in fields <==> f in multiset(fields);
      }
    }
    var i := 0;
    while i < |fields|
      invariant 0 <= i <= |fields|
      invariant forall k :: 0 <= k < i ==> !Yields(fields[k])
      invariant FirstConstant(fields[i..]) == FirstConstant(fields)
    {
      var field := fields[i];
      if Yields(field) {
        r := field.value;
        forall g | g in t.fields && Yields(g) ensures NameLe(field.name, g.name) {
          var k :| 0 <= k < |fields| && fields[k] == g;
          if k != i {
            assert i < k;
          } else {
            NameLeTotal(field.name, g.name);
          }
        }
        return;
      }
      assert fields[i..][1..] == fields[i + 1..];
      i := i + 1;
    }
    r := Null;
    forall f | f in t.fields ensures !Yields(f) {
      var k :| 0 <= k < |fields| && fields[k] == f;
    }
  }

  // ---------------------------------------------------------------------------
  // get
  // ---------------------------------------------------------------------------

  /** `createEmptyArray`: a new array of the component type with no elements. */
  function CreateEmptyArray(t: ClassInfo): (r: Obj)
    ensures r.ArrayObj? && r.component == t.componentType && |r.elements| == 0
  {
    ArrayObj(t.componentType, [])
  }

  /** Whether `get(t)` hands `t` over to its registered implementation. */
  predicate Delegates(defaults: map<ClassName, Obj>, impls: map<ClassName, ClassInfo>, t: ClassInfo) {
    MapGet(defaults, t.name) == Null && t.name in impls
  }

  /** What `get(t)` does once neither a default nor an implementation applies. */
  function Construct(t: ClassInfo): Obj {
    if t.name == StreamClass then EmptyStream
    else if t.isEnum then (if |t.enumConstants| == 0 then Null else t.enumConstants[0])
    else if t.isArray then CreateEmptyArray(t)
    else if AbstractModifier(t) || !t.isPublic then ConstantInstance(t)
    else match t.ctor
      case NoPublicNoArgConstructor => ConstantInstance(t)
      case Instantiates(instance) => instance
      case ConstructorThrows => ConstantInstance(t)
  }

  /**
   * `get(t)`, where `visited` holds the types whose `get` is still on the call
   * stack through implementation substitution: re-entering one of them is an
   * unbounded recursion, which ends the call with a StackOverflowError.
   */
  function Lookup(defaults: map<ClassName, Obj>, impls: map<ClassName, ClassInfo>,
                  t: ClassInfo, visited: set<ClassName>): (r: Outcome<Obj>)
    ensures r.Threw? ==> r == Threw(StackOverflow)
    decreases impls.Keys - visited
  {
    if MapGet(defaults, t.name) != Null then Returned(defaults[t.name])
    else if t.name in impls then
      if t.name in visited then Threw(StackOverflow)
      else Lookup(defaults, impls, impls[t.name], visited + {t.name})
    else Returned(Construct(t))
  }

  /**
   * The order of `get`: a non-null default wins over everything; a registered
   * implementation comes next; then, for a type with neither, the empty stream,
   * the first enum constant (or null), an empty array, the constant lookup for an
   * abstract or non-public type, the no-argument constructor, and the constant
   * lookup when there is no such constructor or it throws.
   */
  lemma LookupOrder(defaults: map<ClassName, Obj>, impls: map<ClassName, ClassInfo>,
                    t: ClassInfo, visited: set<ClassName>)
    ensures MapGet(defaults, t.name) != Null ==>
              Lookup(defaults, impls, t, visited) == Returned(defaults[t.name])
    ensures Delegates(defaults, impls, t) && t.name !in visited ==>
              Lookup(defaults, impls, t, visited) == Lookup(defaults, impls, impls[t.name], visited + {t.name})
    ensures !Delegates(defaults, impls, t) && MapGet(defaults, t.name) == Null ==>
              var r := Lookup(defaults, impls, t, visited).value;
              && (t.name == StreamClass ==> r == EmptyStream)
              && (t.name != StreamClass && t.isEnum ==> r == (if |t.enumConstants| == 0 then Null else t.enumConstants[0]))
              && (t.name != StreamClass && !t.isEnum && t.isArray ==> r == ArrayObj(t.componentType, []))
              && (t.name != StreamClass && !t.isEnum && !t.isArray && (AbstractModifier(t) || !t.isPublic) ==>
                    r == ConstantInstance(t))
              && (t.name != StreamClass && !t.isEnum && !t.isArray && !AbstractModifier(t) && t.isPublic ==>
                    r == (if t.ctor.Instantiates? then t.ctor.instance else ConstantInstance(t)))
  {
  }

  /** An interface with neither a default nor an implementation is never instantiated: it goes to the constant lookup. */
  lemma InterfaceNeverConstructed(defaults: map<ClassName, Obj>, impls: map<ClassName, ClassInfo>,
                                  t: ClassInfo, visited: set<ClassName>)
    requires t.isInterface && MapGet(defaults, t.name) == Null && t.name !in impls
    requires t.name != StreamClass && !t.isEnum && !t.isArray
    ensures Lookup(defaults, impls, t, visited) == Returned(ConstantInstance(t))
  {
  }

  /** The types `get(x)` passes through before it reaches a type named `n` that delegates. */
  ghost predicate ReachesDelegating(defaults: map<ClassName, Obj>, impls: map<ClassName, ClassInfo>,
                                    x: ClassInfo, visited: set<ClassName>, n: ClassName)
    decreases impls.Keys - visited
  {
    Delegates(defaults, impls, x) && x.name !in visited &&
    (x.name == n || ReachesDelegating(defaults, impls, impls[x.name], visited + {x.name}, n))
  }

  /** Marking one more type as on the stack can only turn a returned value into an overflow. */
  lemma {:induction false} LookupVisitedMonotone(defaults: map<ClassName, Obj>, impls: map<ClassName, ClassInfo>,
                                                  x: ClassInfo, visited: set<ClassName>, n: ClassName)
    requires Lookup(defaults, impls, x, visited + {n}).Returned?
    ensures Lookup(defaults, impls, x, visited) == Lookup(defaults, impls, x, visited + {n})
    decreases impls.Keys - visited
  {
    if Delegates(defaults, impls, x) {
      assert x.name !in visited + {n};
      assert visited + {n} + {x.name} == visited + {x.name} + {n};
      LookupVisitedMonotone(defaults, impls, impls[x.name], visited + {x.name}, n);
    }
  }

  /** An overflow that marking `n` causes means the chain from `x` reaches `n`. */
  lemma {:induction false} OverflowByReentry(defaults: map<ClassName, Obj>, impls: map<ClassName, ClassInfo>,
                                              x: ClassInfo, visited: set<ClassName>, n: ClassName)
    requires Lookup(defaults, impls, x, visited + {n}).Threw?
    ensures Lookup(defaults, impls, x, visited).Threw? || ReachesDelegating(defaults, impls, x, visited, n)
    decreases impls.Keys - visited
  {
    if Delegates(defaults, impls, x) && x.name !in visited && x.name != n {
      assert visited + {n} + {x.name} == visited + {x.name} + {n};
      OverflowByReentry(defaults, impls, impls[x.name], visited + {x.name}, n);
    }
  }

  /** A chain that comes back to a type already on the stack overflows. */
  lemma {:induction false} CycleOverflows(defaults: map<ClassName, Obj>, impls: map<ClassName, ClassInfo>,
                                           x: ClassInfo, visited: set<ClassName>, n: ClassName)
    requires ReachesDelegating(defaults, impls, x, visited, n)
    requires n in impls && Delegates(defaults, impls, impls[n])
    requires impls[n].name in visited + {x.name}
    ensures Lookup(defaults, impls, x, visited).Threw?
    decreases impls.Keys - visited
  {
    if x.name != n {
      CycleOverflows(defaults, impls, impls[x.name], visited + {x.name}, n);
    }
  }

  /**
   * With no default but a registered implementation, `get(type)` is `get(implementation)`:
   * the same value, or the same overflow when the implementations form a cycle.
   */
  lemma {:induction false} GetDelegatesToImplementation(defaults: map<ClassName, Obj>,
                                                         impls: map<ClassName, ClassInfo>, t: ClassInfo)
    requires Delegates(defaults, impls, t)
    ensures Lookup(defaults, impls, t, {}) == Lookup(defaults, impls, impls[t.name], {})
  {
    var impl := impls[t.name];
    var none: set<ClassName> := {};
    assert none + {t.name} == {t.name};
    assert Lookup(defaults, impls, t, none) == Lookup(defaults, impls, impl, none + {t.name});
    if Lookup(defaults, impls, impl, none + {t.name}).Returned? {
      LookupVisitedMonotone(defaults, impls, impl, none, t.name);
    } else {
      OverflowByReentry(defaults, impls, impl, none, t.name);
      if !Lookup(defaults, impls, impl, none).Threw? {
        assert ReachesDelegating(defaults, impls, impl, none, t.name);
        assert impls[t.name].name in none + {impl.name};
        CycleOverflows(defaults, impls, impl, none, t.name);
      }
    }
  }

  // ---------------------------------------------------------------------------
  // The registry: DEFAULTS and implementations
  // ---------------------------------------------------------------------------

  class ArbitraryInstances {
    /** `DEFAULTS`: the registered default value of each type. */
    const defaults: ClassToInstanceMap
    /** `implementations`: type -> implementation class, instantiated by `get`. */
    var implementations: map<ClassName, ClassInfo>

    ghost predicate Valid()
      reads this, defaults
    {
      defaults.Valid()
    }

    constructor (defaults: ClassToInstanceMap)
      requires defaults.Valid()
      ensures Valid() && this.defaults == defaults && implementations == map[]
    {
      this.defaults := defaults;
      implementations := map[];
    }

    /**
     * `setImplementation`: rejects a type registered to itself and a type that has a
     * default; otherwise `put`s the implementation and rejects the call if the type
     * already had one, after the earlier implementation has been replaced.
     */
    method SetImplementation(t: ClassName, implementation: ClassInfo) returns (o: Outcome<()>)
      requires Valid()
      modifies this
      ensures Valid()
      ensures t == implementation.name ==> o == Threw(IllegalArgument) && implementations == old(implementations)
      ensures t != implementation.name && defaults.ContainsKey(t) ==>
                o == Threw(IllegalArgument) && implementations == old(implementations)
      ensures t != implementation.name && !defaults.ContainsKey(t) ==>
                && implementations == old(implementations)[t := implementation]
                && (o == Threw(IllegalArgument) <==> t in old(implementations))
                && (o == Returned(()) <==> t !in old(implementations))
    {
      if t == implementation.name {
        return Threw(IllegalArgument);
      }
      if defaults.ContainsKey(t) {
        return Threw(IllegalArgument);
      }
      var previous := if t in implementations then Some(implementations[t]) else None;
      implementations := implementations[t := implementation];
      if previous.Some? {
        return Threw(IllegalArgument);
      }
      return Returned(());
    }

    /**
     * `get(t)`: an arbitrary instance of `t`, or `null` if none can be determined; a
     * non-null `DEFAULTS.getInstance(t)` is returned as it is, and the only failure is
     * the overflow of a cycle of implementations.
     */
    function Get(t: ClassInfo): (r: Outcome<Obj>)
      reads this, defaults
      requires Valid()
      ensures defaults.GetInstance(t.name) != Null ==> r == Returned(defaults.GetInstance(t.name))
      ensures r.Threw? ==> r == Threw(StackOverflow)
    {
      Lookup(defaults.entries, implementations, t, {})
    }
  }
}
