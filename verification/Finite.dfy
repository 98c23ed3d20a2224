/** Counting facts about finite sets and maps. */
module Finite {

  /** The numbers below `n`. */
  function Below(n: nat): (r: set<nat>)
    ensures forall i: nat :: i in r <==> i < n
    ensures |r| == n
  {
    if n == 0 then {} else Below(n - 1) + {n - 1}
  }

  lemma {:induction false} SubsetSize<T>(a: set<T>, b: set<T>)
    requires a <= b
    ensures |a| <= |b|
    ensures |a| == |b| ==> a == b
  {
    if a != {} {
      var x :| x in a;
      SubsetSize(a - {x}, b - {x});
      assert b == b - {x} + {x} && a == a - {x} + {x};
    }
  }

  lemma {:induction false} InjectiveValues(m: map<nat, nat>)
    requires forall r, q | r in m && q in m && m[r] == m[q] :: r == q
    ensures |m.Values| == |m|
    decreases |m|
  {
    if m != map[] {
      var r :| r in m;
      var rest := m - {r};
      assert |rest| == |m| - 1 by {
        assert rest.Keys == m.Keys - {r};
        assert |rest.Keys| == |m.Keys| - 1;
      }
      InjectiveValues(rest);
      assert m.Values == rest.Values + {m[r]} by {
        assert forall q | q in m && q != r :: q in rest && rest[q] == m[q];
      }
      assert m[r] !in rest.Values;
    }
  }

  lemma ValuesAfterAdd(m: map<nat, nat>, k: nat, v: nat)
    requires k !in m
    ensures m[k := v].Values == m.Values + {v}
  {
    var m' := m[k := v];
    assert m'[k] == v;
    assert forall q | q in m :: q in m' && m'[q] == m[q];
  }

  lemma ValuesAfterRemove(m: map<nat, nat>, k: nat)
    requires k in m
    requires forall r, q | r in m && q in m && m[r] == m[q] :: r == q
    ensures (m - {k}).Values == m.Values - {m[k]}
  {
    var m' := m - {k};
    assert forall q | q in m && q != k :: q in m' && m'[q] == m[q];
  }
}
