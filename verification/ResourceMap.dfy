/** resource_map.go: amounts of named resources, as 64-bit integers that wrap around. */
module ResourceArithmetic {
  import opened Text

  const MIN_INT64: int := -0x8000_0000_0000_0000
  const MAX_INT64: int := 0x7fff_ffff_ffff_ffff

  type int64 = x: int | MIN_INT64 <= x <= MAX_INT64

  datatype Error =
    | ErrInput | ErrOverflow | ErrBadArgs | ErrWontFit | ErrResConflict
    | ErrAnnotation | ErrUnknownAction | ErrApi

  type Resources = map<string, int64>

  /** The two's complement value of a sum or difference of two 64-bit integers. */
  function Wrap(x: int): int64
    requires 2 * MIN_INT64 <= x <= MAX_INT64 - MIN_INT64
  {
    if x > MAX_INT64 then x - 0x1_0000_0000_0000_0000
    else if x < MIN_INT64 then x + 0x1_0000_0000_0000_0000
    else x
  }

  function WrapAdd(x: int64, y: int64): int64 { Wrap(x as int + y as int) }

  function WrapSub(x: int64, y: int64): int64 { Wrap(x as int - y as int) }

  /** Go's integer division: it truncates toward zero. */
  function Quotient(x: int64, d: int): (q: int64)
    requires d >= 1
    ensures x >= 0 ==> 0 <= q <= x && d * q <= x < d * q + d
    ensures x < 0 ==> x <= q <= 0 && d * q - d < x <= d * q
  {
    if x >= 0 then
      QuotientBounds(x, d);
      x / d
    else
      var m: int := -(x as int);
      QuotientBounds(m, d);
      -(m / d)
  }

  lemma {:induction false} MultipleGrows(d: int, q: nat)
    requires d >= 1
    ensures q <= d * q
  {
    if q > 0 {
      MultipleGrows(d, q - 1);
      assert d * q == d * (q - 1) + d;
    }
  }

  lemma QuotientBounds(x: int, d: int)
    requires x >= 0 && d >= 1
    ensures 0 <= x / d <= x && d * (x / d) <= x < d * (x / d) + d
  {
    assert x == d * (x / d) + x % d;
    MultipleGrows(d, x / d);
  }

  function Amount(rm: Resources, key: string): int {
    if key in rm then rm[key] else 0
  }

  predicate NonNegative(rm: Resources) {
    forall k :: k in rm ==> rm[k] >= 0
  }

  // ---- what one whole-map addition or subtraction comes to ----

  predicate AddFault(rm: Resources, key: string, value: int64) {
    value < 0 || (key in rm && WrapAdd(rm[key], value) < 0)
  }

  /** The sum of `a` and those entries of `b` whose names are in `names`. */
  function SumOver(a: Resources, b: Resources, names: set<string>): Resources {
    map k | k in a.Keys + b.Keys * names ::
      if k in b && k in names then (if k in a then WrapAdd(a[k], b[k]) else b[k]) else a[k]
  }

  function Sum(a: Resources, b: Resources): Option<Resources> {
    if exists k :: k in b && AddFault(a, k, b[k]) then None
    else Some(SumOver(a, b, b.Keys))
  }

  predicate SubtractFault(rm: Resources, key: string, value: int64) {
    value < 0 || key !in rm
  }

  function Capped(x: int64): int64 { if x < 0 then 0 else x }

  function DifferenceOver(a: Resources, b: Resources, names: set<string>): Resources {
    map k | k in a :: if k in b && k in names then Capped(WrapSub(a[k], b[k])) else a[k]
  }

  function Difference(a: Resources, b: Resources): Option<Resources> {
    if exists k :: k in b && SubtractFault(a, k, b[k]) then None
    else Some(DifferenceOver(a, b, b.Keys))
  }

  function Share(rm: Resources, divider: int): Resources
    requires divider >= 1
  {
    map k | k in rm :: Quotient(rm[k], divider)
  }

  lemma SumOverOneMore(a: Resources, b: Resources, names: set<string>, key: string)
    requires key in b && key !in names && !AddFault(a, key, b[key])
    ensures key in SumOver(a, b, names) <==> key in a
    ensures key in a ==> SumOver(a, b, names)[key] == a[key]
    ensures SumOver(a, b, names + {key}) == SumOver(a, b, names)[key := Amount(a, key) + b[key]]
  {
  }

  lemma DifferenceOverOneMore(a: Resources, b: Resources, names: set<string>, key: string)
    requires key in a && key in b && key !in names && !SubtractFault(a, key, b[key])
    ensures DifferenceOver(a, b, names)[key] == a[key]
    ensures DifferenceOver(a, b, names + {key})
         == DifferenceOver(a, b, names)[key := Capped(WrapSub(a[key], b[key]))]
  {
  }

  predicate NoAddFault(a: Resources, b: Resources, names: set<string>) {
    forall k :: k in names && k in b ==> !AddFault(a, k, b[k])
  }

  predicate NoSubtractFault(a: Resources, b: Resources, names: set<string>) {
    forall k :: k in names && k in b ==> !SubtractFault(a, k, b[k])
  }

  lemma OverNothing(a: Resources, b: Resources)
    ensures SumOver(a, b, {}) == a && DifferenceOver(a, b, {}) == a
  {
  }

  lemma CopyBack(a: Resources, b: Resources, names: set<string>)
    ensures a + SumOver(a, b, names) == SumOver(a, b, names)
    ensures a + DifferenceOver(a, b, names) == DifferenceOver(a, b, names)
  {
  }

  /** A successful addition is the exact pointwise sum: nothing has wrapped around. */
  lemma SumIsExact(a: Resources, b: Resources, key: string)
    requires Sum(a, b).Some?
    ensures Amount(Sum(a, b).value, key) == Amount(a, key) + Amount(b, key)
    ensures Sum(a, b).value.Keys == a.Keys + b.Keys
    ensures NonNegative(b)
  {
    assert key in b ==> !AddFault(a, key, b[key]);
    forall k | k in b ensures b[k] >= 0 {
      assert !AddFault(a, k, b[k]);
    }
  }

  /** On a map without negative amounts, adding fails exactly on a negative input
      or on a true overflow. */
  lemma SumFailsExactly(a: Resources, b: Resources)
    requires NonNegative(a)
    ensures Sum(a, b).None? <==> exists k :: k in b && (b[k] < 0 || Amount(a, k) + b[k] > MAX_INT64)
  {
    if k :| k in b && (b[k] < 0 || Amount(a, k) + b[k] > MAX_INT64) {
      assert AddFault(a, k, b[k]);
    }
  }

  /** Subtraction caps at zero, so it is exact exactly for the resources that do not
      go below zero; it fails exactly on a negative input or a missing resource. */
  lemma DifferenceIsCapped(a: Resources, b: Resources, key: string)
    requires NonNegative(a)
    ensures Difference(a, b).None? <==> exists k :: k in b && (b[k] < 0 || k !in a)
    ensures var d := Difference(a, b);
            d.Some? ==>
              && Amount(d.value, key) == (if Amount(b, key) <= Amount(a, key) then Amount(a, key) - Amount(b, key) else 0)
              && d.value.Keys == a.Keys
              && NonNegative(d.value)
  {
    if k :| k in b && (b[k] < 0 || k !in a) {
      assert SubtractFault(a, k, b[k]);
    }
    if Difference(a, b).Some? && key in b {
      assert !SubtractFault(a, key, b[key]);
    }
  }

  /** What was added can be subtracted again, and every amount is then as before. */
  lemma DifferenceUndoesSum(a: Resources, b: Resources)
    requires NonNegative(a) && Sum(a, b).Some?
    ensures var back := Difference(Sum(a, b).value, b);
            back.Some? && forall k :: Amount(back.value, k) == Amount(a, k)
  {
    var s := Sum(a, b).value;
    forall k ensures Amount(s, k) == Amount(a, k) + Amount(b, k) && NonNegative(b) && s.Keys == a.Keys + b.Keys {
      SumIsExact(a, b, k);
    }
    assert NonNegative(s) by {
      forall k | k in s ensures s[k] >= 0 { assert s[k] == Amount(s, k); }
    }
    forall k ensures Difference(s, b).Some? && Amount(Difference(s, b).value, k) == Amount(a, k) {
      DifferenceIsCapped(s, b, k);
    }
  }

  // ---- the map itself, changed in place ----

  class ResourceMap {
    var amounts: Resources

    constructor (initial: Resources)
      ensures amounts == initial
    {
      amounts := initial;
    }

    method NewCopy() returns (copy: ResourceMap)
      ensures fresh(copy) && copy.amounts == amounts
    {
      copy := new ResourceMap(map[]);
      copy.CopyFrom(amounts);
    }

    method CopyFrom(src: Resources)
      modifies this
      ensures amounts == old(amounts) + src
    {
      var todo := src.Keys;
      while todo != {}
        invariant todo <= src.Keys
        invariant amounts == old(amounts) + (map k | k in src && k !in todo :: src[k])
        decreases todo
      {
        var key :| key in todo;
        amounts := amounts[key := src[key]];
        todo := todo - {key};
      }
      assert (map k | k in src && k !in todo :: src[k]) == src;
    }

    method Add(key: string, value: int64) returns (err: Option<Error>)
      modifies this
      ensures err.Some? <==> AddFault(old(amounts), key, value)
      ensures err.Some? ==> amounts == old(amounts)
      ensures err == Some(ErrInput) <==> value < 0
      ensures err.None? ==> key in amounts && amounts == old(amounts)[key := Amount(old(amounts), key) + value]
      ensures err.None? || err == Some(ErrInput) || err == Some(ErrOverflow)
    {
      if value < 0 {
        return Some(ErrInput);
      }
      var total := value;
      if key in amounts {
        total := WrapAdd(total, amounts[key]);
        if total < 0 {
          return Some(ErrOverflow);
        }
      }
      amounts := amounts[key := total];
      err := None;
    }

    method Subtract(key: string, value: int64) returns (err: Option<Error>)
      modifies this
      ensures err.Some? <==> SubtractFault(old(amounts), key, value)
      ensures err.Some? ==> err == Some(ErrInput) && amounts == old(amounts)
      ensures err.None? ==> amounts == old(amounts)[key := Capped(WrapSub(old(amounts)[key], value))]
    {
      if value < 0 {
        return Some(ErrInput);
      }
      if key in amounts {
        amounts := amounts[key := WrapSub(amounts[key], value)];
        if amounts[key] < 0 {
          amounts := amounts[key := 0];
        }
      } else {
        return Some(ErrInput);
      }
      err := None;
    }

    /** The keys are taken in any order; the outcome does not depend on it, except
        for which of several faults is reported. */
    method AddRM(src: Resources) returns (err: Option<Error>)
      modifies this
      ensures err.None? <==> Sum(old(amounts), src).Some?
      ensures amounts == if err.None? then Sum(old(amounts), src).value else old(amounts)
      ensures err == Some(ErrInput) ==> exists k :: k in src && src[k] < 0
      ensures err == Some(ErrOverflow) ==> exists k :: k in src && src[k] >= 0 && AddFault(old(amounts), k, src[k])
      ensures err.None? || err == Some(ErrInput) || err == Some(ErrOverflow)
    {
      var mapCopy := NewCopy();
      var todo := src.Keys;
      ghost var done := {};
      OverNothing(amounts, src);
      while todo != {}
        invariant fresh(mapCopy) && amounts == old(amounts)
        invariant todo + done == src.Keys && todo * done == {}
        invariant NoAddFault(amounts, src, done)
        invariant mapCopy.amounts == SumOver(amounts, src, done)
        decreases todo
      {
        var key :| key in todo;
        assert AddFault(mapCopy.amounts, key, src[key]) <==> AddFault(amounts, key, src[key]);
        err := mapCopy.Add(key, src[key]);
        if err.Some? {
          return;
        }
        SumOverOneMore(amounts, src, done, key);
        todo, done := todo - {key}, done + {key};
      }
      assert done == src.Keys;
      CopyBack(amounts, src, done);
      CopyFrom(mapCopy.amounts);
      err := None;
    }

    method SubtractRM(src: Resources) returns (err: Option<Error>)
      modifies this
      ensures err.None? <==> Difference(old(amounts), src).Some?
      ensures amounts == if err.None? then Difference(old(amounts), src).value else old(amounts)
      ensures err.None? || err == Some(ErrInput)
    {
      var mapCopy := NewCopy();
      var todo := src.Keys;
      ghost var done := {};
      OverNothing(amounts, src);
      while todo != {}
        invariant fresh(mapCopy) && amounts == old(amounts)
        invariant todo + done == src.Keys && todo * done == {}
        invariant NoSubtractFault(amounts, src, done)
        invariant mapCopy.amounts == DifferenceOver(amounts, src, done)
        decreases todo
      {
        var key :| key in todo;
        assert SubtractFault(mapCopy.amounts, key, src[key]) <==> SubtractFault(amounts, key, src[key]);
        err := mapCopy.Subtract(key, src[key]);
        if err.Some? {
          return;
        }
        DifferenceOverOneMore(amounts, src, done, key);
        todo, done := todo - {key}, done + {key};
      }
      assert done == src.Keys;
      CopyBack(amounts, src, done);
      CopyFrom(mapCopy.amounts);
      err := None;
    }

    method Divide(divider: int) returns (err: Option<Error>)
      modifies this
      ensures err == if divider < 1 then Some(ErrInput) else None
      ensures amounts == if divider < 1 then old(amounts) else Share(old(amounts), divider)
    {
      if divider < 1 {
        return Some(ErrInput);
      }
      if divider == 1 {
        ShareByOne(amounts);
        return None;
      }
      var todo := amounts.Keys;
      while todo != {}
        invariant todo <= old(amounts).Keys && amounts.Keys == old(amounts).Keys
        invariant forall k :: k in amounts ==>
                    amounts[k] == if k in todo then old(amounts)[k] else Quotient(old(amounts)[k], divider)
        decreases todo
      {
        var key :| key in todo;
        amounts := amounts[key := Quotient(amounts[key], divider)];
        todo := todo - {key};
      }
      err := None;
    }
  }

  lemma ShareByOne(rm: Resources)
    ensures Share(rm, 1) == rm
  {
    forall k | k in rm ensures Quotient(rm[k], 1) == rm[k] {
    }
  }
}
