/**
 * The factory that enumerates cache-builder configurations: the sets of
 * option values it is given, the cartesian product of those sets, and the
 * duration specification whose equality is by nanosecond count.
 */
module BuilderFactory {
  import opened JavaLang

  // ---------------------------------------------------------------------------
  // Cartesian product
  // ---------------------------------------------------------------------------

  /** Each combination of `combos`, with `obj` appended at its end. */
  function Extend<T>(obj: T, combos: seq<seq<T>>): (r: seq<seq<T>>)
    ensures |r| == |combos|
    ensures forall k :: 0 <= k < |r| ==> r[k] == combos[k] + [obj]
  {
    seq(|combos|, k requires 0 <= k < |combos| => combos[k] + [obj])
  }

  /** For each element of `elems` in order, every combination of `tail` with that element appended. */
  function Layer<T>(elems: seq<T>, tail: seq<seq<T>>): seq<seq<T>> {
    if elems == [] then []
    else Layer(elems[..|elems| - 1], tail) + Extend(elems[|elems| - 1], tail)
  }

  /** What `_cartesianProduct(index, sets)` returns; each set is given in its iteration order. */
  function Product<T>(sets: seq<seq<T>>, index: nat): seq<seq<T>>
    requires index <= |sets|
    decreases |sets| - index
  {
    if index == |sets| then [[]]
    else Layer(sets[index], Product(sets, index + 1))
  }

  /** The product of the sizes of `sets[index..]`. */
  function SizeProduct<T>(sets: seq<seq<T>>, index: nat): nat
    requires index <= |sets|
    decreases |sets| - index
  {
    if index == |sets| then 1 else |sets[index]| * SizeProduct(sets, index + 1)
  }

  lemma {:induction false} LayerSize<T>(elems: seq<T>, tail: seq<seq<T>>)
    ensures |Layer(elems, tail)| == |elems| * |tail|
  {
    if elems != [] {
      LayerSize(elems[..|elems| - 1], tail);
      assert |elems| * |tail| == (|elems| - 1) * |tail| + |tail|;
    }
  }

  /** Element `i * |tail| + k` of a layer is combination `k` of `tail` with element `i` appended. */
  lemma {:induction false} LayerAt<T>(elems: seq<T>, tail: seq<seq<T>>, i: nat, k: nat)
    requires i < |elems| && k < |tail|
    ensures |Layer(elems, tail)| == |elems| * |tail|
    ensures i * |tail| + k < |elems| * |tail|
    ensures Layer(elems, tail)[i * |tail| + k] == tail[k] + [elems[i]]
  {
    LayerSize(elems, tail);
    var init := elems[..|elems| - 1];
    LayerSize(init, tail);
    assert |elems| * |tail| == (|elems| - 1) * |tail| + |tail|;
    if i < |elems| - 1 {
      LayerAt(init, tail, i, k);
      assert i * |tail| + k < |init| * |tail|;
    } else {
      assert i * |tail| + k == |init| * |tail| + k;
    }
  }

  /** Every combination in a layer is a combination of `tail` with one element of `elems` appended. */
  lemma {:induction false} LayerMembers<T>(elems: seq<T>, tail: seq<seq<T>>, c: seq<T>)
    requires c in Layer(elems, tail)
    ensures exists i, k :: 0 <= i < |elems| && 0 <= k < |tail| && c == tail[k] + [elems[i]]
  {
    var init := elems[..|elems| - 1];
    if c in Layer(init, tail) {
      LayerMembers(init, tail, c);
      var i, k :| 0 <= i < |init| && 0 <= k < |tail| && c == tail[k] + [init[i]];
      assert elems[i] == init[i];
    } else {
      var ext := Extend(elems[|elems| - 1], tail);
      assert c in ext;
      var k :| 0 <= k < |ext| && ext[k] == c;
    }
  }

  /** At `index == sets.length` the product is exactly one combination, the empty list. */
  lemma ProductAtEnd<T>(sets: seq<seq<T>>)
    ensures Product(sets, |sets|) == [[]]
  {
  }

  /** The number of combinations is the product of the set sizes. */
  lemma {:induction false} ProductSize<T>(sets: seq<seq<T>>, index: nat)
    requires index <= |sets|
    ensures |Product(sets, index)| == SizeProduct(sets, index)
    decreases |sets| - index
  {
    if index < |sets| {
      ProductSize(sets, index + 1);
      LayerSize(sets[index], Product(sets, index + 1));
    }
  }

  /** A single empty set among `sets[index..]` leaves no combination at all. */
  lemma {:induction false} ProductEmptyIfAnySetEmpty<T>(sets: seq<seq<T>>, index: nat, e: nat)
    requires index <= e < |sets| && sets[e] == []
    ensures Product(sets, index) == []
    decreases e - index
  {
    ProductSize(sets, index);
    if index < e {
      ProductEmptyIfAnySetEmpty(sets, index + 1, e);
      ProductSize(sets, index + 1);
    }
  }

  /**
   * Every combination from `index` has length `sets.length - index`, and its position
   * `j` holds an element of `sets[sets.length - 1 - j]`: each level appends its element
   * after the elements the deeper levels contributed.
   */
  lemma {:induction false} ProductShape<T>(sets: seq<seq<T>>, index: nat, c: seq<T>)
    requires index <= |sets| && c in Product(sets, index)
    ensures |c| == |sets| - index
    ensures forall j :: 0 <= j < |c| ==> c[j] in sets[|sets| - 1 - j]
    decreases |sets| - index
  {
    if index < |sets| {
      var tail := Product(sets, index + 1);
      LayerMembers(sets[index], tail, c);
      var i, k :| 0 <= i < |sets[index]| && 0 <= k < |tail| && c == tail[k] + [sets[index][i]];
      ProductShape(sets, index + 1, tail[k]);
    }
  }

  /**
   * Combinations are grouped by the element of `sets[index]`, in that set's
   * iteration order: group `i` is every deeper combination, in order, with element
   * `i` appended.
   */
  lemma ProductOrder<T>(sets: seq<seq<T>>, index: nat, i: nat, k: nat)
    requires index < |sets| && i < |sets[index]| && k < |Product(sets, index + 1)|
    ensures i * |Product(sets, index + 1)| + k < |Product(sets, index)|
    ensures Product(sets, index)[i * |Product(sets, index + 1)| + k] ==
              Product(sets, index + 1)[k] + [sets[index][i]]
  {
    LayerAt(sets[index], Product(sets, index + 1), i, k);
  }

  ghost predicate Distinct<T>(s: seq<T>) {
    forall i, j :: 0 <= i < j < |s| ==> s[i] != s[j]
  }

  lemma {:induction false} LayerDistinct<T>(elems: seq<T>, tail: seq<seq<T>>)
    requires Distinct(elems) && Distinct(tail)
    ensures Distinct(Layer(elems, tail))
  {
    if elems != [] {
      var init := elems[..|elems| - 1];
      var last := elems[|elems| - 1];
      var front := Layer(init, tail);
      var ext := Extend(last, tail);
      LayerDistinct(init, tail);
      var r := front + ext;
      forall p, q | 0 <= p < q < |r| ensures r[p] != r[q] {
        if q >= |front| && p < |front| {
          LayerMembers(init, tail, r[p]);
          var i, k :| 0 <= i < |init| && 0 <= k < |tail| && r[p] == tail[k] + [init[i]];
          assert r[q] == tail[q - |front|] + [last];
          assert r[p][|r[p]| - 1] == init[i] != last == r[q][|r[q]| - 1];
        } else if p >= |front| {
          assert r[p] == tail[p - |front|] + [last];
          assert r[q] == tail[q - |front|] + [last];
          assert tail[p - |front|] != tail[q - |front|];
          assert r[p][..|r[p]| - 1] == tail[p - |front|];
          assert r[q][..|r[q]| - 1] == tail[q - |front|];
        }
      }
    }
  }

  /** When no set repeats an element, no two combinations are equal. */
  lemma {:induction false} ProductDistinct<T>(sets: seq<seq<T>>, index: nat)
    requires index <= |sets|
    requires forall e :: index <= e < |sets| ==> Distinct(sets[e])
    ensures Distinct(Product(sets, index))
    decreases |sets| - index
  {
    if index < |sets| {
      ProductDistinct(sets, index + 1);
      LayerDistinct(sets[index], Product(sets, index + 1));
    }
  }

  /**
   * `_cartesianProduct(index, sets)`: for each element of `sets[index]`, recomputes the
   * product of the deeper sets and appends the element to each of its combinations.
   */
  method CartesianProductFrom<T>(index: nat, sets: seq<seq<T>>) returns (ret: seq<seq<T>>)
    requires index <= |sets|
    ensures ret == Product(sets, index)
    decreases |sets| - index
  {
    ret := [];
    if index == |sets| {
      ret := ret + [[]];
    } else {
      var elems := sets[index];
      var i := 0;
      while i < |elems|
        invariant 0 <= i <= |elems|
        invariant ret == Layer(elems[..i], Product(sets, index + 1))
      {
        var obj := elems[i];
        var tail := CartesianProductFrom(index + 1, sets);
        var j := 0;
        while j < |tail|
          invariant 0 <= j <= |tail|
          invariant ret == Layer(elems[..i], tail) + Extend(obj, tail[..j])
        {
          var combination := tail[j] + [obj];
          assert Extend(obj, tail[..j + 1]) == Extend(obj, tail[..j]) + [combination];
          ret := ret + [combination];
          j := j + 1;
        }
        assert tail[..j] == tail;
        assert elems[..i + 1][..i] == elems[..i];
        i := i + 1;
      }
      assert elems[..i] == elems;
    }
  }

  /** `cartesianProduct`: rejects fewer than two sets, and otherwise is the product from index 0. */
  method CartesianProduct<T>(sets: seq<seq<T>>) returns (r: Outcome<seq<seq<T>>>)
    ensures |sets| < 2 ==> r == Threw(IllegalArgument)
    ensures |sets| >= 2 ==> r == Returned(Product(sets, 0))
  {
    if |sets| < 2 {
      return Threw(IllegalArgument);
    }
    var product := CartesianProductFrom(0, sets);
    return Returned(product);
  }

  // ---------------------------------------------------------------------------
  // DurationSpec
  // ---------------------------------------------------------------------------

  const LongMax: int := 0x7fff_ffff_ffff_ffff
  const LongMin: int := -0x8000_0000_0000_0000

  /** Java's `long`. */
  type Long = x: int | LongMin <= x <= LongMax

  datatype TimeUnit = Nanoseconds | Microseconds | Milliseconds | Seconds | Minutes | Hours | Days

  function NanosPerUnit(u: TimeUnit): (m: nat)
    ensures m >= 1
  {
    match u
    case Nanoseconds => 1
    case Microseconds => 1_000
    case Milliseconds => 1_000_000
    case Seconds => 1_000_000_000
    case Minutes => 60_000_000_000
    case Hours => 3_600_000_000_000
    case Days => 86_400_000_000_000
  }

  /** `unit.toNanos(d)`: multiplies by the unit's scale, saturating at `Long.MAX_VALUE`/`Long.MIN_VALUE`. */
  function ToNanos(u: TimeUnit, d: Long): Long {
    if u == Nanoseconds then d
    else
      var m := NanosPerUnit(u);
      var over := LongMax / m;
      if d > over then LongMax
      else if d < -over then LongMin
      else d * m
  }

  /** The exact product, clamped to the `long` range. */
  function Clamp(x: int): Long {
    if x > LongMax then LongMax else if x < LongMin then LongMin else x
  }

  /** The saturating conversion is the exact nanosecond count clamped to the `long` range. */
  lemma ToNanosIsClampedProduct(u: TimeUnit, d: Long)
    ensures ToNanos(u, d) == Clamp(d * NanosPerUnit(u))
  {
  }

  datatype DurationSpec = DurationSpec(duration: Long, unit: TimeUnit)

  /**
   * `DurationSpec.equals(o)`: `o` is `Some(spec)` for a DurationSpec and `None` for
   * anything else, `null` included.
   */
  function Equals(self: DurationSpec, o: Option<DurationSpec>): (r: bool)
    ensures o.None? ==> !r
    ensures o == Some(self) ==> r
    ensures o.Some? && o.value.unit == self.unit == Nanoseconds ==> (r <==> o.value.duration == self.duration)
  {
    match o
    case Some(that) => ToNanos(self.unit, self.duration) == ToNanos(that.unit, that.duration)
    case None => false
  }

  /**
   * Two specs are equal exactly when their exact nanosecond counts agree after
   * clamping to the `long` range; nothing but a DurationSpec is equal to one.
   */
  lemma EqualsByNanos(a: DurationSpec, o: Option<DurationSpec>)
    ensures o.None? ==> !Equals(a, o)
    ensures o.Some? ==>
              (Equals(a, o) <==> Clamp(a.duration * NanosPerUnit(a.unit)) ==
                                  Clamp(o.value.duration * NanosPerUnit(o.value.unit)))
  {
    if o.Some? {
      ToNanosIsClampedProduct(a.unit, a.duration);
      ToNanosIsClampedProduct(o.value.unit, o.value.duration);
    }
  }

  /** Equality of specs is reflexive, symmetric and transitive. */
  lemma EqualsIsEquivalence(a: DurationSpec, b: DurationSpec, c: DurationSpec)
    ensures Equals(a, Some(a))
    ensures Equals(a, Some(b)) ==> Equals(b, Some(a))
    ensures Equals(a, Some(b)) && Equals(b, Some(c)) ==> Equals(a, Some(c))
  {
  }

  /** Specs with different durations and units can be equal: one second is a thousand milliseconds. */
  lemma EqualAcrossUnits()
    ensures Equals(DurationSpec(1, Seconds), Some(DurationSpec(1000, Milliseconds)))
    ensures !Equals(DurationSpec(1, Seconds), Some(DurationSpec(999, Milliseconds)))
  {
  }

  /**
   * Saturation makes every duration past the `long` range equal: all that overflow
   * upwards are equal to each other, and so are all that overflow downwards.
   */
  lemma SaturatedDurationsEqual(a: DurationSpec, b: DurationSpec)
    requires (a.duration * NanosPerUnit(a.unit) > LongMax && b.duration * NanosPerUnit(b.unit) > LongMax) ||
             (a.duration * NanosPerUnit(a.unit) < LongMin && b.duration * NanosPerUnit(b.unit) < LongMin)
    ensures Equals(a, Some(b))
  {
    ToNanosIsClampedProduct(a.unit, a.duration);
    ToNanosIsClampedProduct(b.unit, b.duration);
  }

  // ---------------------------------------------------------------------------
  // The factory's option sets
  // ---------------------------------------------------------------------------

  datatype Strength = Strong | Soft | Weak

  /**
   * The option values to combine, one set per builder option, each kept in the
   * iteration order of the set it was copied from; `None` stands for a `null` entry.
   */
  class CacheBuilderFactory {
    var concurrencyLevels: seq<Option<int>>
    var initialCapacities: seq<Option<int>>
    var maximumSizes: seq<Option<int>>
    var expireAfterWrites: seq<Option<DurationSpec>>
    var expireAfterAccesses: seq<Option<DurationSpec>>
    var refreshes: seq<Option<DurationSpec>>
    var keyStrengths: seq<Option<Strength>>
    var valueStrengths: seq<Option<Strength>>

    constructor ()
      ensures concurrencyLevels == [] && initialCapacities == [] && maximumSizes == []
      ensures expireAfterWrites == [] && expireAfterAccesses == [] && refreshes == []
      ensures keyStrengths == [] && valueStrengths == []
    {
      concurrencyLevels, initialCapacities, maximumSizes := [], [], [];
      expireAfterWrites, expireAfterAccesses, refreshes := [], [], [];
      keyStrengths, valueStrengths := [], [];
    }

    method WithConcurrencyLevels(levels: seq<Option<int>>)
      modifies this`concurrencyLevels
      ensures concurrencyLevels == levels
    {
      concurrencyLevels := levels;
    }

    method WithInitialCapacities(capacities: seq<Option<int>>)
      modifies this`initialCapacities
      ensures initialCapacities == capacities
    {
      initialCapacities := capacities;
    }

    method WithMaximumSizes(sizes: seq<Option<int>>)
      modifies this`maximumSizes
      ensures maximumSizes == sizes
    {
      maximumSizes := sizes;
    }

    method WithExpireAfterWrites(durations: seq<Option<DurationSpec>>)
      modifies this`expireAfterWrites
      ensures expireAfterWrites == durations
    {
      expireAfterWrites := durations;
    }

    method WithExpireAfterAccesses(durations: seq<Option<DurationSpec>>)
      modifies this`expireAfterAccesses
      ensures expireAfterAccesses == durations
    {
      expireAfterAccesses := durations;
    }

    method WithRefreshes(durations: seq<Option<DurationSpec>>)
      modifies this`refreshes
      ensures refreshes == durations
    {
      refreshes := durations;
    }

    /**
     * `withKeyStrengths`: stores the strengths, then rejects a set holding SOFT; the
     * rejected set has already replaced the previous one.
     */
    method WithKeyStrengths(strengths: seq<Option<Strength>>) returns (o: Outcome<()>)
      modifies this`keyStrengths
      ensures keyStrengths == strengths
      ensures o == (if Some(Soft) in strengths then Threw(IllegalArgument) else Returned(()))
    {
      keyStrengths := strengths;
      if Some(Soft) in keyStrengths {
        return Threw(IllegalArgument);
      }
      return Returned(());
    }

    method WithValueStrengths(strengths: seq<Option<Strength>>)
      modifies this`valueStrengths
      ensures valueStrengths == strengths
    {
      valueStrengths := strengths;
    }
  }
}
