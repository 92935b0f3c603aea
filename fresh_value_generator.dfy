/**
 * The generator of "fresh" values for reflective null and equality testing.
 * A freshness counter, starting at 1, is the only source of variety: every
 * value generated at one freshness level is derived from that level, and the
 * level moves on only when a value was actually produced.
 */
module FreshValues {
  import opened JavaLang
  import Arbitrary

  // ---------------------------------------------------------------------------
  // Java arithmetic used by the generators
  // ---------------------------------------------------------------------------

  /** Java's `%` on a positive divisor: truncates toward zero, so a negative dividend gives a non-positive remainder. */
  function JavaRem(a: int, b: int): (r: int)
    requires b > 0
    ensures a >= 0 ==> 0 <= r < b && r == a % b
    ensures a < 0 ==> -b < r <= 0
    ensures (a - r) % b == 0
  {
    if a >= 0 then
      assert a - a % b == (a / b) * b;
      MultipleModZero(a / b, b);
      a % b
    else
      var q := (-a) / b;
      assert a + (-a) % b == (-q) * b;
      MultipleModZero(-q, b);
      -((-a) % b)
  }

  /** `generateInt()`: the current freshness, which is never below 1. */
  function GenerateInt(freshness: int): (r: int)
    requires freshness >= 1
    ensures r >= 1 && r == freshness
  {
    freshness
  }

  /** `generateBoolean()`: `generateInt() % 2 == 0` with Java's remainder. */
  function GenerateBoolean(freshness: int): (b: bool)
    ensures b <==> freshness % 2 == 0
  {
    JavaRem(freshness, 2) == 0
  }

  /** Successive freshness levels alternate the generated boolean, starting from false at level 1. */
  lemma BooleanAlternates(freshness: int)
    ensures GenerateBoolean(freshness + 1) == !GenerateBoolean(freshness)
    ensures !GenerateBoolean(1)
  {
  }

  /** `(short) generateInt()`: the low 16 bits read as a two's-complement value. */
  function GenerateShort(freshness: int): (r: int)
    ensures -0x8000 <= r < 0x8000
    ensures (freshness - r) % 0x1_0000 == 0
    ensures -0x8000 <= freshness < 0x8000 ==> r == freshness
  {
    var low := freshness % 0x1_0000;
    if low >= 0x8000 then low - 0x1_0000 else low
  }

  /** `(byte) generateInt()`: the low 8 bits read as a two's-complement value. */
  function GenerateByte(freshness: int): (r: int)
    ensures -0x80 <= r < 0x80
    ensures (freshness - r) % 0x100 == 0
    ensures -0x80 <= freshness < 0x80 ==> r == freshness
  {
    var low := freshness % 0x100;
    if low >= 0x80 then low - 0x100 else low
  }

  // ---------------------------------------------------------------------------
  // Integer.toString, and its inverse
  // ---------------------------------------------------------------------------

  predicate IsDigit(c: char) {
    '0' <= c <= '9'
  }

  function DigitChar(d: nat): (c: char)
    requires d < 10
    ensures IsDigit(c) && c as int - '0' as int == d
  {
    (d + '0' as int) as char
  }

  /** The decimal digits of `n`, most significant first, without leading zeros. */
  function Digits(n: nat): (s: string)
    ensures |s| >= 1
    ensures forall i :: 0 <= i < |s| ==> IsDigit(s[i])
    ensures s[0] == '0' ==> n == 0
    decreases n
  {
    if n < 10 then [DigitChar(n)] else Digits(n / 10) + [DigitChar(n % 10)]
  }

  /** `Integer.toString(n)`: a minus sign for a negative value, then the digits of its magnitude. */
  function DecimalString(n: int): (s: string)
    ensures |s| >= 1
  {
    if n < 0 then "-" + Digits(-n) else Digits(n)
  }

  /** The value of a string of decimal digits. */
  function DigitsValue(s: string): int {
    if s == [] then 0
    else DigitsValue(s[..|s| - 1]) * 10 + (s[|s| - 1] as int - '0' as int)
  }

  /** `Integer.parseInt` on the strings `Integer.toString` produces. */
  function ParseDecimal(s: string): int {
    if |s| > 0 && s[0] == '-' then -DigitsValue(s[1..]) else DigitsValue(s)
  }

  lemma {:induction false} DigitsRoundTrip(n: nat)
    ensures DigitsValue(Digits(n)) == n
    decreases n
  {
    if n >= 10 {
      DigitsRoundTrip(n / 10);
      var s := Digits(n);
      assert s[..|s| - 1] == Digits(n / 10);
    }
  }

  /** `generateString()` is the decimal form of the freshness, which parses back to it. */
  lemma DecimalRoundTrip(n: int)
    ensures ParseDecimal(DecimalString(n)) == n
  {
    if n < 0 {
      DigitsRoundTrip(-n);
      assert DecimalString(n)[1..] == Digits(-n);
    } else {
      DigitsRoundTrip(n);
      assert IsDigit(Digits(n)[0]);
    }
  }

  /** Different freshness levels give different strings. */
  lemma DecimalInjective(a: int, b: int)
    requires DecimalString(a) == DecimalString(b)
    ensures a == b
  {
    DecimalRoundTrip(a);
    DecimalRoundTrip(b);
  }

  /** `generateString()` at a freshness level. */
  function GenerateString(freshness: int): (s: string)
    requires freshness >= 1
    ensures |s| >= 1 && s[0] != '0' && forall i :: 0 <= i < |s| ==> IsDigit(s[i])
    ensures ParseDecimal(s) == freshness
  {
    DecimalRoundTrip(freshness);
    DecimalString(freshness)
  }

  // ---------------------------------------------------------------------------
  // Picking from a collection
  // ---------------------------------------------------------------------------

  /** A `Collection<Object>`: its elements in iteration order, and whether it is a `List`. */
  datatype Collection = Collection(elements: seq<Obj>, isList: bool)

  /**
   * `pickInstance(instances, defaultValue)`: the default for a `null` (`None`) or
   * empty collection, and otherwise the element at `(generateInt() - 1) % size`.
   */
  function PickInstance(instances: Option<Collection>, default: Obj, freshness: int): (r: Obj)
    requires freshness >= 1
    ensures instances.None? || instances.value.elements == [] ==> r == default
    ensures instances.Some? && instances.value.elements != [] ==> r in instances.value.elements
  {
    match instances
    case None => default
    case Some(c) =>
      if c.elements == [] then default
      else c.elements[JavaRem(GenerateInt(freshness) - 1, |c.elements|)]
  }

  /**
   * Successive freshness levels walk the collection round-robin: level `i + 1`
   * picks element `i`, and `size` levels later the same element comes back.
   */
  lemma PickRoundRobin(c: Collection, default: Obj, freshness: int)
    requires freshness >= 1 && c.elements != []
    ensures freshness <= |c.elements| ==> PickInstance(Some(c), default, freshness) == c.elements[freshness - 1]
    ensures PickInstance(Some(c), default, freshness + |c.elements|) == PickInstance(Some(c), default, freshness)
  {
    var n := |c.elements|;
    PickAt(c, default, freshness);
    PickAt(c, default, freshness + n);
    ModShift(freshness - 1, n);
    if freshness <= n {
      ModSmall(freshness - 1, n);
    }
  }

  lemma ModSmall(x: nat, n: nat)
    requires x < n
    ensures x % n == x
  {
  }

  lemma PickAt(c: Collection, default: Obj, freshness: int)
    requires freshness >= 1 && c.elements != []
    ensures PickInstance(Some(c), default, freshness) == c.elements[(freshness - 1) % |c.elements|]
  {
  }

  /** A non-zero multiple of a positive number is at least that number away from zero. */
  lemma MulAwayFromZero(k: int, n: int)
    requires n > 0
    ensures k >= 1 ==> k * n >= n
    ensures k <= -1 ==> k * n <= -n
  {
  }

  /** A multiple of `n` leaves no remainder. */
  lemma MultipleModZero(k: int, n: int)
    requires n > 0
    ensures (k * n) % n == 0
  {
    var q, r := (k * n) / n, (k * n) % n;
    assert (k - q) * n == r;
    MulAwayFromZero(k - q, n);
  }

  lemma ModShift(x: nat, n: nat)
    requires n > 0
    ensures (x + n) % n == x % n
  {
    var q, r := x / n, x % n;
    var q2, r2 := (x + n) / n, (x + n) % n;
    assert (q + 1 - q2) * n == r2 - r;
    MulAwayFromZero(q + 1 - q2, n);
  }

  /**
   * `get(iterator, position)`: skips `position` elements while there are any, then
   * takes the next one, which fails with NoSuchElementException past the end.
   */
  method IteratorGet(elements: seq<Obj>, position: int) returns (r: Outcome<Obj>)
    ensures 0 <= position < |elements| ==> r == Returned(elements[position])
    ensures position < 0 && elements != [] ==> r == Returned(elements[0])
    ensures position >= |elements| || elements == [] ==> r == Threw(NoSuchElement)
  {
    var cursor := 0;
    while cursor < position && cursor < |elements|
      invariant 0 <= cursor <= |elements|
      invariant position >= 0 ==> cursor <= position
      invariant position < 0 ==> cursor == 0
    {
      cursor := cursor + 1;
    }
    if cursor < |elements| {
      r := Returned(elements[cursor]);
    } else {
      r := Threw(NoSuchElement);
    }
  }

  // ---------------------------------------------------------------------------
  // Types and generators
  // ---------------------------------------------------------------------------

  /**
   * Which `java.lang.reflect.Type` a class token stands for: the raw `Class`
   * itself, a `ParameterizedType` of it, or a type variable (named by its declaring
   * class and its own name) whose bound is that class. Types of different forms are
   * different keys of the empty-instance record, as they are in Java.
   */
  datatype TypeForm = RawClass | Parameterized | Variable(declarer: ClassName, name: string)

  /**
   * A `TypeToken`. A class type lists one token per declared type parameter of
   * its raw class: the argument when the token is parameterized, the variable
   * (with its bound as the class) when it is raw. Every array type, whatever its
   * component, is an `ArrayType`.
   */
  datatype TypeToken =
    | ClassType(raw: ClassInfo, typeParams: seq<TypeToken>, form: TypeForm)
    | ArrayType(component: TypeToken)

  /** The name of `type.getRawType()`. */
  function RawName(t: TypeToken): ClassName {
    match t
    case ClassType(raw, _, _) => raw.name
    case ArrayType(c) => RawName(c) + "[]"
  }

  /**
   * A `@Generates` method: the number of its parameters, and what it returns
   * at a freshness level for the given arguments.
   */
  datatype Generator = Generator(arity: nat, run: (int, seq<Obj>) -> Obj)

  /**
   * What generation consults besides the generator's own fields: the `@Generates`
   * and `@Empty` methods by return type, and the state of `ArbitraryInstances`.
   */
  datatype Env = Env(
    generators: map<ClassName, Generator>,
    emptyGenerators: map<ClassName, int -> Obj>,
    defaults: map<ClassName, Obj>,
    implementations: map<ClassName, ClassInfo>)

  /** The outcome of `generate` and the `emptyInstanceGenerated` map it leaves. */
  datatype Generated = Generated(value: Outcome<Obj>, record: map<TypeToken, int>)

  /** The outcome of generating a `@Generates` method's arguments; `None` when one of them was `null`. */
  datatype GeneratedArgs = GeneratedArgs(args: Outcome<Option<seq<Obj>>>, record: map<TypeToken, int>)

  /** An `@Empty` method may be used for `t`: never used for it, or used at this same freshness. */
  predicate EmptyUsable(record: map<TypeToken, int>, t: TypeToken, freshness: int) {
    t !in record || record[t] == freshness
  }

  /** The map only grows, with new entries at the current freshness and old ones untouched. */
  predicate RecordExtends(before: map<TypeToken, int>, after: map<TypeToken, int>, freshness: int) {
    (forall k :: k in before ==> k in after && after[k] == before[k]) &&
    (forall k :: k in after && k !in before ==> after[k] == freshness)
  }

  /**
   * `generate(type)` at a freshness level: registered samples, then enum constants,
   * then arrays, then the `@Empty` method, then the `@Generates` method, and last
   * a proxy for an interface or `ArbitraryInstances.get` for a class.
   */
  function GenerateAt(env: Env, freshness: int, samples: map<ClassName, Collection>,
                    record: map<TypeToken, int>, t: TypeToken): (g: Generated)
    requires freshness >= 1
    ensures RecordExtends(record, g.record, freshness)
    decreases t, 2
  {
    var name := RawName(t);
    var sample := PickInstance(if name in samples then Some(samples[name]) else None, Null, freshness);
    if sample != Null then Generated(Returned(sample), record)
    else match t
      case ArrayType(c) =>
        var element := GenerateAt(env, freshness, samples, record, c);
        (match element.value
         case Threw(e) => Generated(Threw(e), element.record)
         case Returned(v) => Generated(Returned(ArrayObj(RawName(c), [v])), element.record))
      case ClassType(raw, _, _) =>
        if raw.isEnum then
          Generated(Returned(PickInstance(Some(Collection(raw.enumConstants, true)), Null, freshness)), record)
        else if name in env.emptyGenerators && EmptyUsable(record, t, freshness) then
          Generated(Returned(env.emptyGenerators[name](freshness)), record[t := freshness])
        else GenerateFromGenerators(env, freshness, samples, record, t)
  }

  /**
   * The steps of `generate` after the `@Empty` method: the `@Generates` method with
   * generated arguments, else a proxy for an interface or `ArbitraryInstances.get`.
   */
  function GenerateFromGenerators(env: Env, freshness: int, samples: map<ClassName, Collection>,
                                  record: map<TypeToken, int>, t: TypeToken): (g: Generated)
    requires freshness >= 1 && t.ClassType?
    ensures RecordExtends(record, g.record, freshness)
    decreases t, 1
  {
    var name := RawName(t);
    if name in env.generators then
      var gen := env.generators[name];
      var a := GenerateArgs(env, freshness, samples, record, t, gen.arity, 0, []);
      match a.args
      case Threw(e) => Generated(Threw(e), a.record)
      case Returned(None) => Generated(Returned(Null), a.record)
      case Returned(Some(args)) => Generated(Returned(gen.run(freshness, args)), a.record)
    else if t.raw.isInterface then
      Generated(Returned(Proxy(name, GenerateInt(freshness))), record)
    else
      Generated(Arbitrary.Lookup(env.defaults, env.implementations, t.raw, {}), record)
  }

  /**
   * The argument loop of `generate` from parameter `i` on, with `args` generated
   * so far: parameter `i` takes the type resolved for type variable `i`, a missing
   * type variable is an ArrayIndexOutOfBoundsException, and a `null` argument
   * stops the loop.
   */
  function GenerateArgs(env: Env, freshness: int, samples: map<ClassName, Collection>,
                        record: map<TypeToken, int>, t: TypeToken, arity: nat, i: nat,
                        args: seq<Obj>): (a: GeneratedArgs)
    requires freshness >= 1 && t.ClassType?
    ensures RecordExtends(record, a.record, freshness)
    ensures i <= arity && a.args.Returned? && a.args.value.Some? ==>
              |a.args.value.value| == |args| + arity - i &&
              a.args.value.value[..|args|] == args &&
              forall j :: |args| <= j < |a.args.value.value| ==> a.args.value.value[j] != Null
    decreases t, 0, arity - i
  {
    if i >= arity then GeneratedArgs(Returned(Some(args)), record)
    else if i >= |t.typeParams| then GeneratedArgs(Threw(ArrayIndexOutOfBounds), record)
    else
      var g := GenerateAt(env, freshness, samples, record, t.typeParams[i]);
      match g.value
      case Threw(e) => GeneratedArgs(Threw(e), g.record)
      case Returned(v) =>
        if v == Null then GeneratedArgs(Returned(None), g.record)
        else
          var rest := GenerateArgs(env, freshness, samples, g.record, t, arity, i + 1, args + [v]);
          assert i + 1 <= arity && rest.args.Returned? && rest.args.value.Some? ==>
                   rest.args.value.value[..|args| + 1] == args + [v];
          rest
  }

  // ---------------------------------------------------------------------------
  // Properties of generation
  // ---------------------------------------------------------------------------

  /** A registered sample that is not `null` is returned before anything else is tried. */
  lemma SampleFirst(env: Env, freshness: int, samples: map<ClassName, Collection>,
                    record: map<TypeToken, int>, t: TypeToken)
    requires freshness >= 1 && RawName(t) in samples
    requires PickInstance(Some(samples[RawName(t)]), Null, freshness) != Null
    ensures GenerateAt(env, freshness, samples, record, t) ==
              Generated(Returned(PickInstance(Some(samples[RawName(t)]), Null, freshness)), record)
  {
  }

  /** Without a usable sample, an enum gets one of its constants, picked by freshness, or `null` when it has none. */
  lemma EnumPicksConstant(env: Env, freshness: int, samples: map<ClassName, Collection>,
                          record: map<TypeToken, int>, raw: ClassInfo, params: seq<TypeToken>, form: TypeForm)
    requires freshness >= 1 && raw.isEnum && raw.name !in samples
    ensures var g := GenerateAt(env, freshness, samples, record, ClassType(raw, params, form));
            g.record == record &&
            (raw.enumConstants == [] ==> g.value == Returned(Null)) &&
            (raw.enumConstants != [] ==> g.value.Returned? && g.value.value in raw.enumConstants)
  {
  }

  /** Without a usable sample, an array type gets an array of length 1 whose element is generated for the component type. */
  lemma ArrayOfOne(env: Env, freshness: int, samples: map<ClassName, Collection>,
                   record: map<TypeToken, int>, c: TypeToken)
    requires freshness >= 1 && RawName(ArrayType(c)) !in samples
    ensures var g := GenerateAt(env, freshness, samples, record, ArrayType(c));
            var element := GenerateAt(env, freshness, samples, record, c);
            g.record == element.record &&
            (element.value.Returned? ==>
               g.value.Returned? && g.value.value.ArrayObj? &&
               g.value.value.component == RawName(c) &&
               |g.value.value.elements| == 1 && g.value.value.elements[0] == element.value.value) &&
            (element.value.Threw? ==> g.value == element.value)
  {
  }

  /** The class types that reach the `@Empty` step: no usable sample, not an enum, with an `@Empty` method. */
  predicate ReachesEmpty(env: Env, samples: map<ClassName, Collection>, t: TypeToken) {
    t.ClassType? && RawName(t) !in samples && !t.raw.isEnum && RawName(t) in env.emptyGenerators
  }

  /** The first request for a type with an `@Empty` method returns the empty instance and records the freshness. */
  lemma EmptyFirstRequest(env: Env, freshness: int, samples: map<ClassName, Collection>,
                          record: map<TypeToken, int>, t: TypeToken)
    requires freshness >= 1 && ReachesEmpty(env, samples, t) && t !in record
    ensures GenerateAt(env, freshness, samples, record, t) ==
              Generated(Returned(env.emptyGenerators[RawName(t)](freshness)), record[t := freshness])
  {
  }

  /**
   * The record is keyed by the exact type: after the empty instance of one form of a
   * class (say the raw `Optional`) was issued at one freshness, a request for another
   * form of it (say `Optional<Object>`) at another freshness still gets the empty
   * instance, and is recorded under its own key.
   */
  lemma EmptyKeyedByExactType(env: Env, samples: map<ClassName, Collection>, record: map<TypeToken, int>,
                              raw: ClassInfo, params: seq<TypeToken>, form1: TypeForm, form2: TypeForm,
                              f1: int, f2: int)
    requires f1 >= 1 && f2 >= 1 && form1 != form2
    requires raw.name !in samples && !raw.isEnum && raw.name in env.emptyGenerators
    requires ClassType(raw, params, form1) !in record && ClassType(raw, params, form2) !in record
    ensures var t1, t2 := ClassType(raw, params, form1), ClassType(raw, params, form2);
            var g1 := GenerateAt(env, f1, samples, record, t1);
            var g2 := GenerateAt(env, f2, samples, g1.record, t2);
            g1.value == Returned(env.emptyGenerators[raw.name](f1)) &&
            g2.value == Returned(env.emptyGenerators[raw.name](f2)) &&
            g2.record == record[t1 := f1][t2 := f2]
  {
    var t1, t2 := ClassType(raw, params, form1), ClassType(raw, params, form2);
    EmptyFirstRequest(env, f1, samples, record, t1);
    EmptyFirstRequest(env, f2, samples, record[t1 := f1], t2);
  }

  /** A repeat request at the freshness already recorded returns the empty instance again and leaves the record as it was. */
  lemma EmptyRepeatSameFreshness(env: Env, freshness: int, samples: map<ClassName, Collection>,
                                 record: map<TypeToken, int>, t: TypeToken)
    requires freshness >= 1 && ReachesEmpty(env, samples, t) && t in record && record[t] == freshness
    ensures GenerateAt(env, freshness, samples, record, t) ==
              Generated(Returned(env.emptyGenerators[RawName(t)](freshness)), record)
  {
  }

  /**
   * At any other freshness the `@Empty` method is skipped: generation goes on with
   * the `@Generates` step, and the recorded freshness for the type stays what it was.
   */
  lemma EmptyDifferentFreshness(env: Env, freshness: int, samples: map<ClassName, Collection>,
                                record: map<TypeToken, int>, t: TypeToken)
    requires freshness >= 1 && ReachesEmpty(env, samples, t) && t in record && record[t] != freshness
    ensures var g := GenerateAt(env, freshness, samples, record, t);
            g == GenerateFromGenerators(env, freshness, samples, record, t) &&
            t in g.record && g.record[t] == record[t]
  {
  }

  /**
   * A `@Generates` method only ever receives non-`null` arguments, one per
   * parameter: when an argument comes out `null`, `generate` returns `null`.
   */
  lemma GeneratorGetsNonNullArgs(env: Env, freshness: int, samples: map<ClassName, Collection>,
                                 record: map<TypeToken, int>, t: TypeToken)
    requires freshness >= 1 && t.ClassType? && RawName(t) in env.generators
    ensures var a := GenerateArgs(env, freshness, samples, record, t, env.generators[RawName(t)].arity, 0, []);
            a.args.Returned? && a.args.value.Some? ==>
              |a.args.value.value| == env.generators[RawName(t)].arity &&
              forall j :: 0 <= j < |a.args.value.value| ==> a.args.value.value[j] != Null
  {
  }

  /** The empty-instance record after the first `k` type arguments have been generated in order. */
  function RecordBefore(env: Env, freshness: int, samples: map<ClassName, Collection>,
                        record: map<TypeToken, int>, t: TypeToken, k: nat): (r: map<TypeToken, int>)
    requires freshness >= 1 && t.ClassType? && k <= |t.typeParams|
    ensures RecordExtends(record, r, freshness)
  {
    if k == 0 then record
    else GenerateAt(env, freshness, samples, RecordBefore(env, freshness, samples, record, t, k - 1),
                    t.typeParams[k - 1]).record
  }

  /** From position `i` on, the argument loop stops with no arguments at the first type argument that generates `null`. */
  lemma {:induction false} ArgsStopAtNull(env: Env, freshness: int, samples: map<ClassName, Collection>,
                                          record: map<TypeToken, int>, t: TypeToken, arity: nat,
                                          i: nat, args: seq<Obj>, k: nat)
    requires freshness >= 1 && t.ClassType? && i <= k < arity && k < |t.typeParams|
    requires forall j :: i <= j < k ==>
               GenerateAt(env, freshness, samples, RecordBefore(env, freshness, samples, record, t, j), t.typeParams[j]).value.Returned? &&
               GenerateAt(env, freshness, samples, RecordBefore(env, freshness, samples, record, t, j), t.typeParams[j]).value != Returned(Null)
    requires GenerateAt(env, freshness, samples, RecordBefore(env, freshness, samples, record, t, k), t.typeParams[k]).value == Returned(Null)
    ensures GenerateArgs(env, freshness, samples, RecordBefore(env, freshness, samples, record, t, i), t, arity, i, args).args == Returned(None)
    decreases k - i
  {
    var g := GenerateAt(env, freshness, samples, RecordBefore(env, freshness, samples, record, t, i), t.typeParams[i]);
    if i < k {
      ArgsStopAtNull(env, freshness, samples, record, t, arity, i + 1, args + [g.value.value], k);
    }
  }

  /**
   * A `null` argument makes the whole generation `null`: when the type arguments before
   * position `k` generate non-null values and the one at `k` generates `null`, the
   * `@Generates` method is not called and that step answers `null`. `generate` itself
   * answers `null` whenever it reaches that step: no usable sample, not an enum, and no
   * `@Empty` method it may use at this freshness.
   */
  lemma NullArgumentRefuses(env: Env, freshness: int, samples: map<ClassName, Collection>,
                            record: map<TypeToken, int>, t: TypeToken, k: nat)
    requires freshness >= 1 && t.ClassType? && RawName(t) in env.generators
    requires k < env.generators[RawName(t)].arity && k < |t.typeParams|
    requires forall j :: 0 <= j < k ==>
               GenerateAt(env, freshness, samples, RecordBefore(env, freshness, samples, record, t, j), t.typeParams[j]).value.Returned? &&
               GenerateAt(env, freshness, samples, RecordBefore(env, freshness, samples, record, t, j), t.typeParams[j]).value != Returned(Null)
    requires GenerateAt(env, freshness, samples, RecordBefore(env, freshness, samples, record, t, k), t.typeParams[k]).value == Returned(Null)
    ensures GenerateArgs(env, freshness, samples, record, t, env.generators[RawName(t)].arity, 0, []).args == Returned(None)
    ensures GenerateFromGenerators(env, freshness, samples, record, t).value == Returned(Null)
    ensures PickInstance(if RawName(t) in samples then Some(samples[RawName(t)]) else None, Null, freshness) == Null &&
            !t.raw.isEnum && !(RawName(t) in env.emptyGenerators && EmptyUsable(record, t, freshness)) ==>
              GenerateAt(env, freshness, samples, record, t).value == Returned(Null)
  {
    ArgsStopAtNull(env, freshness, samples, record, t, env.generators[RawName(t)].arity, 0, [], k);
  }

  /** With nothing else applicable, an interface gets a new proxy whose identity is the freshness; a class goes to `ArbitraryInstances.get`. */
  lemma DefaultGenerate(env: Env, freshness: int, samples: map<ClassName, Collection>,
                        record: map<TypeToken, int>, raw: ClassInfo, params: seq<TypeToken>, form: TypeForm)
    requires freshness >= 1 && raw.name !in samples && !raw.isEnum
    requires raw.name !in env.emptyGenerators && raw.name !in env.generators
    ensures var g := GenerateAt(env, freshness, samples, record, ClassType(raw, params, form));
            g.record == record &&
            (raw.isInterface ==> g.value == Returned(Proxy(raw.name, freshness))) &&
            (!raw.isInterface ==> g.value == Arbitrary.Lookup(env.defaults, env.implementations, raw, {}))
  {
  }

  // ---------------------------------------------------------------------------
  // The generator object
  // ---------------------------------------------------------------------------

  class FreshValueGenerator {
    const generators: map<ClassName, Generator>
    const emptyGenerators: map<ClassName, int -> Obj>
    const arbitrary: Arbitrary.ArbitraryInstances
    var freshness: int
    var sampleInstances: map<ClassName, Collection>
    /** The freshness level at which the `@Empty` method was used for each type. */
    var emptyInstanceGenerated: map<TypeToken, int>

    ghost predicate Valid()
      reads this
    {
      freshness >= 1
    }

    function Environment(): Env
      reads this, arbitrary, arbitrary.defaults
    {
      Env(generators, emptyGenerators, arbitrary.defaults.entries, arbitrary.implementations)
    }

    constructor (generators: map<ClassName, Generator>, emptyGenerators: map<ClassName, int -> Obj>,
                 arbitrary: Arbitrary.ArbitraryInstances)
      ensures Valid() && freshness == 1
      ensures sampleInstances == map[] && emptyInstanceGenerated == map[]
      ensures this.generators == generators && this.emptyGenerators == emptyGenerators
      ensures this.arbitrary == arbitrary
    {
      this.generators := generators;
      this.emptyGenerators := emptyGenerators;
      this.arbitrary := arbitrary;
      freshness := 1;
      sampleInstances := map[];
      emptyInstanceGenerated := map[];
    }

    /** `addSampleInstances`: registers (or replaces) the samples of one raw type. */
    method AddSampleInstances(t: ClassName, instances: Collection)
      modifies this`sampleInstances
      ensures sampleInstances == old(sampleInstances)[t := instances]
    {
      sampleInstances := sampleInstances[t := instances];
    }

    /** `pickInstance`: a `List` is indexed directly, any other collection is walked with its iterator. */
    method PickInstanceOf(instances: Option<Collection>, default: Obj) returns (r: Obj)
      requires Valid()
      ensures r == PickInstance(instances, default, freshness)
    {
      if instances.None? || instances.value.elements == [] {
        return default;
      }
      var c := instances.value;
      var pos := JavaRem(GenerateInt(freshness) - 1, |c.elements|);
      if c.isList {
        r := c.elements[pos];
      } else {
        var o := IteratorGet(c.elements, pos);
        r := o.value;
      }
    }

    /** `generate`: computes the value for `t` at the current freshness and records each use of an `@Empty` method. */
    method Generate(t: TypeToken) returns (r: Outcome<Obj>)
      requires Valid()
      modifies this`emptyInstanceGenerated
      ensures r == GenerateAt(Environment(), freshness, sampleInstances, old(emptyInstanceGenerated), t).value
      ensures emptyInstanceGenerated == GenerateAt(Environment(), freshness, sampleInstances, old(emptyInstanceGenerated), t).record
      decreases t, 2
    {
      var name := RawName(t);
      var sample := PickInstanceOf(if name in sampleInstances then Some(sampleInstances[name]) else None, Null);
      if sample != Null {
        return Returned(sample);
      }
      match t
      case ArrayType(c) =>
        var element := Generate(c);
        match element {
          case Threw(e) =>
            return Threw(e);
          case Returned(v) =>
            return Returned(ArrayObj(RawName(c), [v]));
        }
      case ClassType(raw, params, _) =>
        if raw.isEnum {
          var constant := PickInstanceOf(Some(Collection(raw.enumConstants, true)), Null);
          return Returned(constant);
        }
        if name in emptyGenerators {
          if t in emptyInstanceGenerated {
            if emptyInstanceGenerated[t] == freshness {
              // same freshness: the empty instance may be returned again
              assert emptyInstanceGenerated[t := freshness] == emptyInstanceGenerated;
              return Returned(emptyGenerators[name](freshness));
            }
          } else {
            var emptyInstance := emptyGenerators[name](freshness);
            emptyInstanceGenerated := emptyInstanceGenerated[t := freshness];
            return Returned(emptyInstance);
          }
        }
        r := UseGenerators(t);
    }

    /** The steps of `generate` after the `@Empty` method: the `@Generates` method, else the default generator. */
    method UseGenerators(t: TypeToken) returns (r: Outcome<Obj>)
      requires Valid() && t.ClassType?
      modifies this`emptyInstanceGenerated
      ensures r == GenerateFromGenerators(Environment(), freshness, sampleInstances, old(emptyInstanceGenerated), t).value
      ensures emptyInstanceGenerated == GenerateFromGenerators(Environment(), freshness, sampleInstances, old(emptyInstanceGenerated), t).record
      decreases t, 1
    {
      var name := RawName(t);
      if name in generators {
        var gen := generators[name];
        var record0 := emptyInstanceGenerated;
        var args: seq<Obj> := [];
        var i := 0;
        while i < gen.arity
          invariant 0 <= i <= gen.arity
          invariant GenerateArgs(Environment(), freshness, sampleInstances, emptyInstanceGenerated, t, gen.arity, i, args) ==
                    GenerateArgs(Environment(), freshness, sampleInstances, record0, t, gen.arity, 0, [])
        {
          if i >= |t.typeParams| {
            return Threw(ArrayIndexOutOfBounds);
          }
          var argValue := Generate(t.typeParams[i]);
          match argValue {
            case Threw(e) =>
              return Threw(e);
            case Returned(v) =>
              if v == Null {
                return Returned(Null);
              }
              args := args + [v];
          }
          i := i + 1;
        }
        return Returned(gen.run(freshness, args));
      }
      if t.raw.isInterface {
        return Returned(Proxy(name, GenerateInt(freshness)));
      }
      r := Arbitrary.Lookup(arbitrary.defaults.entries, arbitrary.implementations, t.raw, {});
    }

    /** `generateFresh`: generates for `t`, and moves to the next freshness level exactly when the value is not `null`. */
    method GenerateFresh(t: TypeToken) returns (r: Outcome<Obj>)
      requires Valid()
      modifies this`emptyInstanceGenerated, this`freshness
      ensures Valid()
      ensures r == GenerateAt(Environment(), old(freshness), sampleInstances, old(emptyInstanceGenerated), t).value
      ensures emptyInstanceGenerated == GenerateAt(Environment(), old(freshness), sampleInstances, old(emptyInstanceGenerated), t).record
      ensures freshness == old(freshness) + (if r.Returned? && r.value != Null then 1 else 0)
    {
      r := Generate(t);
      if r.Returned? && r.value != Null {
        freshness := freshness + 1;
      }
    }

    /** `newFreshProxy`: a proxy whose identity is the current freshness, after which the level moves on. */
    method NewFreshProxy(interfaceType: ClassName) returns (p: Obj)
      requires Valid()
      modifies this`freshness
      ensures Valid()
      ensures p == Proxy(interfaceType, old(freshness)) && freshness == old(freshness) + 1
    {
      p := Proxy(interfaceType, GenerateInt(freshness));
      freshness := freshness + 1;
    }
  }

  /** Two proxies made one after the other by the same generator are never equal. */
  method SuccessiveProxiesDiffer(g: FreshValueGenerator, interfaceType: ClassName) returns (p1: Obj, p2: Obj)
    requires g.Valid()
    modifies g
    ensures p1 != p2 && p1.Proxy? && p2.Proxy? && p2.identity == p1.identity + 1
  {
    p1 := g.NewFreshProxy(interfaceType);
    p2 := g.NewFreshProxy(interfaceType);
  }
}
