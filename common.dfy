/** Small helpers shared by the model: an Option type and the few list
    operations of Python that the seating plan relies on. */
module Common {

  datatype Option<T> = None | Some(value: T)

  /** No element occurs twice. */
  predicate NoDup<T(==)>(s: seq<T>)
  {
    forall i, j :: 0 <= i < j < |s| ==> s[i] != s[j]
  }

  /** Python's `list.remove(x)`: drops the first occurrence of `x`. The
      callers in the model only use it when `x` is present, or guard it. */
  function RemoveFirst<T(==)>(s: seq<T>, x: T): seq<T>
  {
    if |s| == 0 then []
    else if s[0] == x then s[1..]
    else [s[0]] + RemoveFirst(s[1..], x)
  }

  lemma {:induction false} RemoveFirstFacts<T>(s: seq<T>, x: T)
    ensures x in s ==> |RemoveFirst(s, x)| == |s| - 1
    ensures x !in s ==> RemoveFirst(s, x) == s
    ensures forall y :: y in RemoveFirst(s, x) ==> y in s
    ensures forall y :: y in s && y != x ==> y in RemoveFirst(s, x)
  {
    if |s| > 0 {
      RemoveFirstFacts(s[1..], x);
      if s[0] != x {
        assert RemoveFirst(s, x) == [s[0]] + RemoveFirst(s[1..], x);
        forall y | y in s && y != x ensures y in RemoveFirst(s, x) {
          if y != s[0] { assert y in s[1..]; }
        }
      } else {
        forall y | y in s && y != x ensures y in RemoveFirst(s, x) {
          assert y in s[1..];
        }
      }
    }
  }

  /** On a list without duplicates, removing `x` removes it entirely and
      keeps the list duplicate-free. */
  lemma {:induction false} RemoveFirstNoDup<T>(s: seq<T>, x: T)
    requires NoDup(s)
    ensures NoDup(RemoveFirst(s, x))
    ensures forall y :: y in RemoveFirst(s, x) <==> y in s && y != x
  {
    RemoveFirstFacts(s, x);
    if |s| > 0 {
      assert NoDup(s[1..]) by {
        forall i, j | 0 <= i < j < |s[1..]| ensures s[1..][i] != s[1..][j] {
          assert s[1..][i] == s[i + 1] && s[1..][j] == s[j + 1];
        }
      }
      RemoveFirstNoDup(s[1..], x);
      if s[0] == x {
        assert x !in s[1..] by {
          forall j | 0 <= j < |s[1..]| ensures s[1..][j] != x {
            assert s[1..][j] == s[j + 1];
          }
        }
      } else {
        var r := RemoveFirst(s, x);
        assert r == [s[0]] + RemoveFirst(s[1..], x);
        assert s[0] !in s[1..] by {
          forall j | 0 <= j < |s[1..]| ensures s[1..][j] != s[0] {
            assert s[1..][j] == s[j + 1];
          }
        }
        assert s[0] !in RemoveFirst(s[1..], x);
        forall i, j | 0 <= i < j < |r| ensures r[i] != r[j] {
          if i == 0 {
            assert r[j] == RemoveFirst(s[1..], x)[j - 1];
            assert r[j] in RemoveFirst(s[1..], x);
          } else {
            assert r[i] == RemoveFirst(s[1..], x)[i - 1];
            assert r[j] == RemoveFirst(s[1..], x)[j - 1];
          }
        }
      }
    }
  }

  /** Removing `x` from a list with `y` appended, for `x != y`, removes it
      from the list before `y`. */
  lemma {:induction false} RemoveFirstAppend<T>(s: seq<T>, x: T, y: T)
    requires x != y
    ensures RemoveFirst(s + [y], x) == RemoveFirst(s, x) + [y]
  {
    if |s| == 0 {
      assert s + [y] == [y];
      assert [y][1..] == [];
    } else {
      assert (s + [y])[0] == s[0] && (s + [y])[1..] == s[1..] + [y];
      RemoveFirstAppend(s[1..], x, y);
    }
  }

  /** Python dict insertion: a new key goes to the end of the iteration
      order, an existing key keeps its place. */
  function Put(order: seq<int>, k: int): (r: seq<int>)
  {
    if k in order then order else order + [k]
  }

  /** `order` lists the keys of `m`, each once (the iteration order of a
      Python dict). */
  predicate Enumerates<V>(order: seq<int>, m: map<int, V>)
  {
    NoDup(order) && (forall k :: k in order ==> k in m) && (forall k :: k in m ==> k in order)
  }

  lemma PutEnumerates<V>(order: seq<int>, m: map<int, V>, k: int, v: V)
    requires Enumerates(order, m)
    ensures Enumerates(Put(order, k), m[k := v])
    ensures k !in m ==> Put(order, k) == order + [k]
    ensures k in m ==> Put(order, k) == order
  {
    if k !in order {
      var r := order + [k];
      forall i, j | 0 <= i < j < |r| ensures r[i] != r[j] {
        if j == |order| { assert r[i] == order[i]; assert order[i] in order; }
      }
    }
  }

  /** Each position of the order holds a key. */
  lemma EnumeratesAt<V>(order: seq<int>, m: map<int, V>, i: int)
    requires Enumerates(order, m) && 0 <= i < |order|
    ensures order[i] in m
  {
    var k := order[i];
    assert k in order;
  }

  lemma RemoveEnumerates<V>(order: seq<int>, m: map<int, V>, k: int)
    requires Enumerates(order, m)
    ensures Enumerates(RemoveFirst(order, k), m - {k})
  {
    RemoveFirstNoDup(order, k);
  }

  /** Python's `max(s)` over a non-empty collection of integers. */
  function MaxOf(s: seq<int>): (r: int)
    requires |s| > 0
    ensures r in s
    ensures forall x :: x in s ==> x <= r
  {
    if |s| == 1 then s[0]
    else
      var m := MaxOf(s[1..]);
      assert forall x :: x in s ==> x == s[0] || x in s[1..];
      if s[0] >= m then s[0] else m
  }

  function Max(a: int, b: int): int
  {
    if a >= b then a else b
  }
}
