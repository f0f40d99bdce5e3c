/** The two sorts the planner relies on: Go's sort.Strings on card names and
    sort.SliceStable by the use of one resource. */
module Ordering {
  import opened ResourceArithmetic
  import opened Allocations

  predicate LexLe(a: string, b: string) {
    a == "" || (b != "" && (a[0] < b[0] || (a[0] == b[0] && LexLe(a[1..], b[1..]))))
  }

  lemma {:induction false} LexTotal(a: string, b: string)
    ensures LexLe(a, b) || LexLe(b, a)
    ensures LexLe(a, a)
  {
    if a != "" {
      LexTotal(a[1..], if b == "" then "" else b[1..]);
    }
  }

  lemma {:induction false} LexTransitive(a: string, b: string, c: string)
    requires LexLe(a, b) && LexLe(b, c)
    ensures LexLe(a, c)
  {
    if a != "" && a[0] == b[0] == c[0] {
      LexTransitive(a[1..], b[1..], c[1..]);
    }
  }

  lemma {:induction false} LexAntisymmetric(a: string, b: string)
    requires LexLe(a, b) && LexLe(b, a)
    ensures a == b
  {
    if a != "" {
      LexAntisymmetric(a[1..], b[1..]);
      assert a == [a[0]] + a[1..] && b == [b[0]] + b[1..];
    }
  }

  /** The order of names is that of a dictionary: a beginning comes first, and otherwise the first character in which
      the names differ decides. */
  lemma {:induction false} LexMeans(a: string, b: string)
    ensures LexLe(a, b) <==> a <= b || exists i :: 0 <= i < |a| && i < |b| && a[..i] == b[..i] && a[i] < b[i]
  {
    if a != "" && b != "" && a[0] == b[0] {
      var x, y := a[1..], b[1..];
      LexMeans(x, y);
      assert a == [a[0]] + x && b == [b[0]] + y;
      if i :| 0 <= i < |x| && i < |y| && x[..i] == y[..i] && x[i] < y[i] {
        assert a[..i + 1] == [a[0]] + x[..i] && b[..i + 1] == [b[0]] + y[..i] && a[i + 1] < b[i + 1];
      }
      if i :| 0 <= i < |a| && i < |b| && a[..i] == b[..i] && a[i] < b[i] {
        assert x[..i - 1] == a[..i][1..] && y[..i - 1] == b[..i][1..] && x[i - 1] < y[i - 1];
      }
    } else if a != "" && b != "" {
      if a[0] < b[0] {
        assert a[..0] == b[..0];
      }
      if i :| 0 <= i < |a| && i < |b| && a[..i] == b[..i] && a[i] < b[i] {
        SameFirst(a, b, i);
      }
    }
  }

  lemma SameFirst(a: string, b: string, i: nat)
    requires i < |a| && i < |b| && a[..i] == b[..i]
    ensures i == 0 || a[0] == b[0]
  {
    if i > 0 {
      assert a[0] == a[..i][0] && b[0] == b[..i][0];
    }
  }

  /** x comes before every other element. */
  ghost predicate IsFirst(elements: set<string>, le: (string, string) -> bool, x: string) {
    x in elements && forall y :: y in elements && y != x ==> le(x, y)
  }

  ghost predicate TotalOrder(le: (string, string) -> bool) {
    && (forall a, b :: le(a, b) || le(b, a))
    && (forall a, b, c :: le(a, b) && le(b, c) ==> le(a, c))
    && forall a, b :: le(a, b) && le(b, a) ==> a == b
  }

  lemma {:induction false} FirstExists(elements: set<string>, le: (string, string) -> bool)
    requires elements != {} && TotalOrder(le)
    ensures exists x :: IsFirst(elements, le, x)
  {
    var e :| e in elements;
    var rest := elements - {e};
    if rest == {} {
      assert elements == {e};
      assert IsFirst(elements, le, e);
    } else {
      FirstExists(rest, le);
      var x :| IsFirst(rest, le, x);
      if le(x, e) {
        assert IsFirst(elements, le, x);
      } else {
        FirstBefore(rest, le, e, x);
        forall y | y in elements && y != e ensures le(e, y) {
          assert y in rest;
        }
        assert IsFirst(elements, le, e);
      }
    }
  }

  lemma FirstBefore(elements: set<string>, le: (string, string) -> bool, e: string, x: string)
    requires TotalOrder(le) && IsFirst(elements, le, x) && !le(x, e)
    ensures forall y :: y in elements ==> le(e, y)
  {
    assert le(e, x);
    forall y | y in elements ensures le(e, y) {
      if y != x {
        assert le(x, y);
      }
    }
  }

  lemma FirstIsUnique(elements: set<string>, le: (string, string) -> bool, x: string, y: string)
    requires TotalOrder(le) && IsFirst(elements, le, x) && IsFirst(elements, le, y)
    ensures x == y
  {
  }

  predicate NoDuplicates<T(==)>(s: seq<T>) {
    forall i, j :: 0 <= i < j < |s| ==> s[i] != s[j]
  }

  predicate LexSorted(names: seq<string>) {
    forall i, j :: 0 <= i < j < |names| ==> LexLe(names[i], names[j])
  }

  /** Less used first, by name among equals. */
  predicate Precedes(used: NodeResources, key: string, a: string, b: string) {
    var x, y := AmountAt(used, a, key), AmountAt(used, b, key);
    x < y || (x == y && LexLe(a, b))
  }

  predicate UseSorted(used: NodeResources, key: string, names: seq<string>) {
    forall i, j :: 0 <= i < j < |names| ==> Precedes(used, key, names[i], names[j])
  }

  ghost predicate Holds(names: seq<string>, elements: set<string>) {
    NoDuplicates(names) && forall c :: c in names <==> c in elements
  }

  lemma {:induction false} HoldsSize(names: seq<string>, elements: set<string>)
    requires Holds(names, elements)
    ensures |names| == |elements|
  {
    if names == [] {
      assert elements == {};
    } else {
      var front, last := names[..|names| - 1], names[|names| - 1];
      forall c ensures c in front <==> c in elements - {last} {
        assert c in names <==> c in front || c == last;
      }
      HoldsSize(front, elements - {last});
    }
  }

  function InsertAt(names: seq<string>, p: nat, x: string): seq<string>
    requires p <= |names|
  {
    names[..p] + [x] + names[p..]
  }

  lemma InsertHolds(names: seq<string>, elements: set<string>, p: nat, x: string)
    requires p <= |names| && Holds(names, elements) && x !in elements
    ensures Holds(InsertAt(names, p, x), elements + {x})
  {
    assert forall c :: c in InsertAt(names, p, x) <==> c in names || c == x by {
      assert names == names[..p] + names[p..];
    }
  }

  method SortNames(elements: set<string>) returns (sorted: seq<string>)
    ensures Holds(sorted, elements) && LexSorted(sorted)
  {
    sorted := [];
    var todo := elements;
    ghost var done := {};
    while todo != {}
      invariant todo + done == elements && todo * done == {}
      invariant Holds(sorted, done) && LexSorted(sorted)
      decreases todo
    {
      var x :| x in todo;
      var p := 0;
      while p < |sorted| && LexLe(sorted[p], x)
        invariant 0 <= p <= |sorted|
        invariant forall i :: 0 <= i < p ==> LexLe(sorted[i], x)
      {
        p := p + 1;
      }
      if p < |sorted| {
        LexTotal(sorted[p], x);
        forall i | p <= i < |sorted| ensures LexLe(x, sorted[i]) {
          if i > p {
            LexTransitive(x, sorted[p], sorted[i]);
          }
        }
      }
      InsertHolds(sorted, done, p, x);
      sorted := InsertAt(sorted, p, x);
      todo, done := todo - {x}, done + {x};
    }
    assert done == elements;
  }

  /** The names must come sorted; the stable sort then breaks ties by name. */
  method ArrangePerAvailability(used: NodeResources, names: seq<string>, key: string, ghost elements: set<string>)
    returns (keys: seq<string>)
    requires Holds(names, elements) && LexSorted(names)
    ensures Holds(keys, elements) && UseSorted(used, key, keys)
    ensures forall i, j :: 0 <= i < j < |keys| ==>
      && AmountAt(used, keys[i], key) <= AmountAt(used, keys[j], key)
      && (AmountAt(used, keys[i], key) == AmountAt(used, keys[j], key) ==> LexLe(keys[i], keys[j]))
  {
    keys := [];
    var i := 0;
    ghost var done := {};
    while i < |names|
      invariant 0 <= i <= |names|
      invariant forall c :: c in done <==> c in names[..i]
      invariant Holds(keys, done) && UseSorted(used, key, keys)
    {
      var x := names[i];
      var p := |keys|;
      while p > 0 && AmountAt(used, keys[p - 1], key) > AmountAt(used, x, key)
        invariant 0 <= p <= |keys|
        invariant forall j :: p <= j < |keys| ==> AmountAt(used, keys[j], key) > AmountAt(used, x, key)
      {
        p := p - 1;
      }
      forall j | 0 <= j < p ensures Precedes(used, key, keys[j], x) {
        if j < p - 1 {
          assert Precedes(used, key, keys[j], keys[p - 1]);
        }
        assert keys[j] in done;
        assert keys[j] in names[..i];
      }
      assert x !in done;
      InsertHolds(keys, done, p, x);
      keys := InsertAt(keys, p, x);
      done := done + {x};
      assert names[..i + 1] == names[..i] + [x];
      i := i + 1;
    }
    assert names[..i] == names;
    assert done == elements;
    forall a, b | 0 <= a < b < |keys| ensures Precedes(used, key, keys[a], keys[b]) {
    }
  }

  /** movePreferredCardToFront: a swap, not a rotation. */
  method MovePreferredToFront(names: seq<string>, preferred: string, ghost elements: set<string>)
    returns (moved: seq<string>)
    requires Holds(names, elements)
    ensures Holds(moved, elements)
    ensures preferred in elements ==>
      exists i :: 0 <= i < |names| && names[i] == preferred && moved == names[0 := preferred][i := names[0]]
    ensures preferred in elements ==> moved[0] == preferred
    ensures preferred !in elements ==> moved == names
  {
    moved := names;
    var i := 0;
    while i < |names|
      invariant 0 <= i <= |names|
      invariant preferred !in names[..i]
    {
      if names[i] == preferred {
        moved := names[0 := preferred][i := names[0]];
        assert forall j :: 0 <= j < |names| ==> moved[j] == names[if j == 0 then i else if j == i then 0 else j];
        forall c ensures c in moved <==> c in names {
          if c in names {
            var j :| 0 <= j < |names| && names[j] == c;
            assert moved[if j == 0 then i else if j == i then 0 else j] == c;
          }
        }
        return;
      }
      assert names[..i + 1] == names[..i] + [names[i]];
      i := i + 1;
    }
    assert names[..i] == names;
  }
}
