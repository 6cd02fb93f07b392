/**
 * The loss bound of UrrAccounting.UrrLossBound is exact: when every CPU looks before any CPU writes, all but one
 * lose.
 */
module UrrLossTight {
  import opened Words
  import opened Sums
  import opened UrrRace
  import opened UrrAccounting

  ghost predicate Reaches(s: State, steps: seq<Step>, t: State) {
    Legal(s, steps) && Exec(s, steps) == t
  }

  lemma Prepend(s: State, step: Step, rest: seq<Step>, t: State)
    requires Enabled(s, step) && Reaches(Next(s, step), rest, t)
    ensures Reaches(s, [step] + rest, t)
  {
    assert ([step] + rest)[1..] == rest;
  }

  lemma {:induction false} Chain(s: State, a: seq<Step>, t: State, b: seq<Step>, e: State)
    requires Reaches(s, a, t) && Reaches(t, b, e)
    ensures Reaches(s, a + b, e)
    decreases |a|
  {
    if a == [] {
      assert a + b == b;
    } else {
      assert (a + b)[1..] == a[1..] + b;
      Chain(Next(s, a[0]), a[1..], t, b, e);
    }
  }

  /** CPUs below k have missed the key; nothing is written yet. */
  ghost predicate Looked(s: State, n: nat, k: nat, u: u32, len: u32) {
    && s.cpus == seq(n, c => if c < k then Missing(u, len) else Idle)
    && s.counters == map[] && s.lost == map[]
  }

  lemma {:induction false} EveryoneLooks(s: State, n: nat, k: nat, u: u32, len: u32)
    returns (steps: seq<Step>, e: State)
    requires u != 0 && k <= n && Looked(s, n, k, u, len)
    ensures Reaches(s, steps, e) && Looked(e, n, n, u, len) && Uses(steps, {u})
    decreases n - k
  {
    if k == n {
      steps, e := [], s;
    } else {
      var step := Lookup(k, u, len);
      assert Next(s, step).cpus == seq(n, c => if c < k + 1 then Missing(u, len) else Idle);
      var rest;
      rest, e := EveryoneLooks(Next(s, step), n, k + 1, u, len);
      Prepend(s, step, rest, e);
      steps := [step] + rest;
    }
  }

  /** CPU 0 has created the key; CPUs 1 to k-1 have found it taken and lost their packet. */
  ghost predicate Losing(s: State, n: nat, k: nat, u: u32, len: u32) {
    && s.cpus == seq(n, c => if c < k then Idle else Missing(u, len))
    && u in s.counters
    && forall c: nat :: c < n ==> On(s.lost, u, c).pkts == if 0 < c < k then 1 else 0
  }

  lemma OneLoses(s: State, n: nat, k: nat, u: u32, len: u32)
    requires 0 < k < n && Losing(s, n, k, u, len)
    ensures Enabled(s, Commit(k)) && Losing(Next(s, Commit(k)), n, k + 1, u, len)
  {
    var s' := Next(s, Commit(k));
    assert s'.cpus == seq(n, c => if c < k + 1 then Idle else Missing(u, len));
    forall c: nat | c < n
      ensures On(s'.lost, u, c).pkts == if 0 < c < k + 1 then 1 else 0
    {
      if c == k {
        CommitLoses(s, k, u);
      } else {
        CommitOther(s, Commit(k), u, c);
      }
    }
  }

  lemma {:induction false} EveryoneLoses(s: State, n: nat, k: nat, u: u32, len: u32)
    returns (steps: seq<Step>, e: State)
    requires 0 < k <= n && Losing(s, n, k, u, len)
    ensures Reaches(s, steps, e) && Losing(e, n, n, u, len) && Uses(steps, {u})
    decreases n - k
  {
    if k == n {
      steps, e := [], s;
    } else {
      var step := Commit(k);
      OneLoses(s, n, k, u, len);
      var rest;
      rest, e := EveryoneLoses(Next(s, step), n, k + 1, u, len);
      Prepend(s, step, rest, e);
      steps := [step] + rest;
    }
  }

  lemma {:induction false} AllButFirst(xs: seq<nat>)
    requires forall c :: 0 <= c < |xs| ==> xs[c] == if 0 < c then 1 else 0
    ensures Sum(xs) == if xs == [] then 0 else |xs| - 1
  {
    if |xs| > 1 {
      AllButFirst(xs[..|xs| - 1]);
    }
  }

  lemma CreatorCommits(s: State, n: nat, u: u32, len: u32)
    requires n > 0 && Looked(s, n, n, u, len)
    ensures Enabled(s, Commit(0)) && Losing(Next(s, Commit(0)), n, 1, u, len)
  {
    assert Next(s, Commit(0)).cpus == seq(n, c => if c < 1 then Idle else Missing(u, len));
  }

  /** For every number of CPUs and every URR id some run loses exactly N-1 packets of it. */
  lemma LossBoundIsExact(n: nat, u: u32, len: u32) returns (steps: seq<Step>)
    requires n > 0 && u != 0
    ensures Legal(Init(n), steps) && Uses(steps, {u})
    ensures Pkts(Exec(Init(n), steps).lost, u, n) == n - 1
  {
    var looks, s1 := EveryoneLooks(Init(n), n, 0, u, len);
    CreatorCommits(s1, n, u, len);
    var loses, e := EveryoneLoses(Next(s1, Commit(0)), n, 1, u, len);
    Prepend(s1, Commit(0), loses, e);
    Chain(Init(n), looks, s1, [Commit(0)] + loses, e);
    steps := looks + ([Commit(0)] + loses);
    AllButFirst(seq(n, c requires 0 <= c => On(e.lost, u, c).pkts));
  }
}
