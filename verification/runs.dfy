/** Runs of a machine given by which steps it can take. */
module Runs {
  /** `does(s, a, t)`: the machine can take step `a` from `s`, and is then at `t`. */
  ghost predicate Run<S(!new), A>(does: (S, A, S) -> bool, s: S, run: seq<A>, t: S)
    decreases |run|
  {
    if |run| == 0 then s == t else exists u :: does(s, run[0], u) && Run(does, u, run[1..], t)
  }

  lemma RunOne<S(!new), A>(does: (S, A, S) -> bool, s: S, a: A, t: S)
    requires does(s, a, t)
    ensures Run(does, s, [a], t)
  {
    assert Run(does, t, [a][1..], t);
  }

  lemma RunFirst<S(!new), A>(does: (S, A, S) -> bool, s: S, a: A, run: seq<A>, t: S)
    ensures Run(does, s, [a] + run, t) <==> exists u :: does(s, a, u) && Run(does, u, run, t)
  {
    var all := [a] + run;
    assert all[0] == a && all[1..] == run;
  }

  lemma {:induction false} RunOn<S(!new), A>(does: (S, A, S) -> bool, s: S, r1: seq<A>, u: S, r2: seq<A>, t: S)
    requires Run(does, s, r1, u) && Run(does, u, r2, t)
    ensures Run(does, s, r1 + r2, t)
    decreases |r1|
  {
    if r1 == [] {
      assert r1 + r2 == r2;
    } else {
      var v :| does(s, r1[0], v) && Run(does, v, r1[1..], u);
      RunOn(does, v, r1[1..], u, r2, t);
      assert r1 + r2 == [r1[0]] + (r1[1..] + r2);
      RunFirst(does, s, r1[0], r1[1..] + r2, t);
    }
  }

  lemma RunPrefix<S(!new), A>(does: (S, A, S) -> bool, s: S, a: A, u: S, run: seq<A>, t: S)
    requires does(s, a, u) && Run(does, u, run, t)
    ensures Run(does, s, [a] + run, t)
  {
    RunFirst(does, s, a, run, t);
  }

  function Times<A>(n: nat, a: A): seq<A> { seq(n, _ => a) }

  lemma RunOneMore<S(!new), A>(does: (S, A, S) -> bool, s: S, a: A, u: S, n: nat, t: S)
    requires does(s, a, u) && Run(does, u, Times(n, a), t)
    ensures Run(does, s, Times(n + 1, a), t)
  {
    RunPrefix(does, s, a, u, Times(n, a), t);
    assert [a] + Times(n, a) == Times(n + 1, a);
  }

  lemma RunOneLast<S(!new), A>(does: (S, A, S) -> bool, s: S, n: nat, u: S, a: A, t: S)
    requires Run(does, s, Times(n, a), u) && does(u, a, t)
    ensures Run(does, s, Times(n + 1, a), t)
  {
    RunOne(does, u, a, t);
    RunOn(does, s, Times(n, a), u, [a], t);
    assert Times(n, a) + [a] == Times(n + 1, a);
  }

  lemma RunLast<S(!new), A>(does: (S, A, S) -> bool, s: S, b: A, n: nat, u: S, a: A, t: S)
    requires Run(does, s, [b] + Times(n, a), u) && does(u, a, t)
    ensures Run(does, s, [b] + Times(n + 1, a), t)
  {
    RunOne(does, u, a, t);
    RunOn(does, s, [b] + Times(n, a), u, [a], t);
    assert [b] + Times(n, a) + [a] == [b] + Times(n + 1, a);
  }

  /** A loop of two steps, through the states `head(i)`, `mid(i)`, `head(i + 1)`, ..., `head(n)`. */
  lemma {:induction false} RunLoop<S(!new), A>(does: (S, A, S) -> bool, head: nat -> S, mid: nat -> S, a: A, i: nat, n: nat)
    requires i <= n && forall j: nat :: i <= j < n ==> does(head(j), a, mid(j)) && does(mid(j), a, head(j + 1))
    ensures Run(does, head(i), Times(2 * (n - i), a), head(n))
    decreases n - i
  {
    if i == n {
    } else {
      RunLoop(does, head, mid, a, i + 1, n);
      RunOneMore(does, mid(i), a, head(i + 1), 2 * (n - i - 1), head(n));
      RunOneMore(does, head(i), a, mid(i), 2 * (n - i - 1) + 1, head(n));
    }
  }

  /** Two steps, such a loop, and one step. */
  lemma RunWalk<S(!new), A>(does: (S, A, S) -> bool, s: S, u: S, head: nat -> S, mid: nat -> S, a: A, n: nat, t: S)
    requires does(s, a, u) && does(u, a, head(0)) && does(head(n), a, t)
    requires forall j: nat :: j < n ==> does(head(j), a, mid(j)) && does(mid(j), a, head(j + 1))
    ensures Run(does, s, Times(2 * n + 3, a), t)
  {
    RunLoop(does, head, mid, a, 0, n);
    RunOneLast(does, head(0), 2 * n, head(n), a, t);
    RunOneMore(does, u, a, head(0), 2 * n + 1, t);
    RunOneMore(does, s, a, u, 2 * n + 2, t);
  }
}
