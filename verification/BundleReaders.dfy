/**
 * The same value kept in storage that updates overwrite in place, one 32-bit word at a time in any order, under
 * readers that also load one word at a time, whichever they need and in any order.
 */
module BundleWordReaders {
  import opened Words
  import opened TcBundle

  /** update(goal): the words in `done` are copied. The second copy carries the flipped flag. */
  datatype Writer = Free
                  | First(goal: seq<u32>, goal2: seq<u32>, done: set<nat>, next: Tuple)
                  | Second(goal2: seq<u32>, done: set<nat>, next: Tuple)

  /** A packet: has read nothing, or the flag and some words of that slot. `began` is the number of commits when it
      read the flag; `hit` records that a later step 1 wrote into its slot. */
  datatype Reader = Waiting | Loading(active: nat, got: map<nat, u32>, began: nat, hit: bool)

  datatype State = State(mem: seq<u32>, writer: Writer, commits: seq<Tuple>, readers: seq<Reader>)

  datatype Step = Begin(c: Change) | Put(p: nat) | Flag(r: nat) | Load(r: nat, k: nat)

  function Init(t: Tuple, n: nat): State {
    State(BundleWords(0, t, t), Free, [t], seq(n, _ => Waiting))
  }

  function Slot(mem: seq<u32>, a: nat): seq<u32>
    requires |mem| == 14 && a < 2
  {
    mem[2 + 6 * a..8 + 6 * a]
  }

  predicate Enabled(s: State, step: Step) {
    && |s.mem| == 14
    && match step
       case Begin(_) => s.writer.Free?
       case Put(p) =>
         && p < 14
         && ((s.writer.First? && |s.writer.goal| == 14 && p !in s.writer.done)
             || (s.writer.Second? && |s.writer.goal2| == 14 && p !in s.writer.done))
       case Flag(r) => r < |s.readers|
       case Load(r, k) => r < |s.readers| && s.readers[r].Loading? && s.readers[r].active < 2 && k < 6
  }

  /** The words of a whole value. */
  predicate AllOf(done: set<nat>) {
    forall k: nat :: k < 14 ==> k in done
  }

  /** Readers of the slot that holds word `p` when step 1 writes it while `live` is active. */
  function Struck(rs: seq<Reader>, live: int, p: nat): seq<Reader> {
    seq(|rs|, r requires 0 <= r < |rs| =>
          if rs[r].Loading? && rs[r].active != live && 2 + 6 * rs[r].active <= p < 8 + 6 * rs[r].active
          then rs[r].(hit := true) else rs[r])
  }

  function Next(s: State, step: Step): State
    requires Enabled(s, step)
  {
    match step
    case Begin(c) =>
      var w := Modify(Pack(s.mem), c);
      if w.None? then s
      else s.(writer := First(Unpack(w.value.step1), Unpack(w.value.step2), {}, Apply(Live(Pack(s.mem)), c).value))
    case Put(p) =>
      var done := s.writer.done + {p};
      if s.writer.First? then
        s.(mem := s.mem[p := s.writer.goal[p]],
           writer := if AllOf(done) then Second(s.writer.goal2, {}, s.writer.next)
                     else First(s.writer.goal, s.writer.goal2, done, s.writer.next),
           readers := Struck(s.readers, s.mem[0] as int, p))
      else
        // the new tuple is live from the moment the flag word is written
        s.(mem := s.mem[p := s.writer.goal2[p]],
           writer := if AllOf(done) then Free else Second(s.writer.goal2, done, s.writer.next),
           commits := if p == 0 then s.commits + [s.writer.next] else s.commits)
    case Flag(r) => s.(readers := s.readers[r := Loading(s.mem[0] % 2, map[], |s.commits|, false)])
    case Load(r, k) =>
      var rd := s.readers[r];
      s.(readers := s.readers[r := rd.(got := rd.got[k := s.mem[2 + 6 * rd.active + k]])])
  }

  predicate Legal(s: State, steps: seq<Step>)
    decreases |steps|
  {
    steps == [] || (Enabled(s, steps[0]) && Legal(Next(s, steps[0]), steps[1..]))
  }

  function Exec(s: State, steps: seq<Step>): State
    requires Legal(s, steps)
    decreases |steps|
  {
    if steps == [] then s else Exec(Next(s, steps[0]), steps[1..])
  }

  // ---- The invariant ----

  ghost predicate MemSound(s: State) {
    && |s.mem| == 14 && s.mem[0] < 2 && s.mem[1] == 0 && s.commits != []
    && Slot(s.mem, s.mem[0]) == SlotWords(s.commits[|s.commits| - 1])
  }

  /** The words of the two writes of a modification that makes `next` current. */
  ghost predicate IsGoal(mem: seq<u32>, g: seq<u32>, g2: seq<u32>, next: Tuple)
    requires |mem| == 14 && mem[0] < 2
  {
    var a := mem[0];
    && |g| == 14 && g[0] == a && g[1] == 0 && g2 == g[0 := 1 - a]
    && Slot(g, a) == Slot(mem, a) && Slot(g, 1 - a) == SlotWords(next)
  }

  ghost predicate GoalSound(s: State)
    requires MemSound(s)
  {
    var a := s.mem[0];
    match s.writer
    case Free => true
    case First(g, g2, done, t) =>
      && IsGoal(s.mem, g, g2, t) && !AllOf(done)
      && (forall k :: 0 <= k < 14 && k in done ==> s.mem[k] == g[k])
    case Second(g2, done, t) =>
      && |g2| == 14 && !AllOf(done) && g2[0] < 2 && g2[1] == 0
      && (forall k :: 1 <= k < 14 ==> s.mem[k] == g2[k])
      && a == (if 0 in done then g2[0] else 1 - g2[0])
      && Slot(g2, g2[0]) == SlotWords(t)
  }

  /** Every word in hand is the tuple's. */
  ghost predicate Agrees(got: map<nat, u32>, t: Tuple) {
    forall k :: k in got ==> k < 6 && got[k] == SlotWords(t)[k]
  }

  /** A reader whose slot no later step 1 has written holds words of a committed tuple, still in its slot. */
  ghost predicate ReaderSound(s: State, rd: Reader)
    requires MemSound(s)
  {
    rd.Loading? ==>
      && rd.active < 2 && 0 < rd.began <= |s.commits|
      && (rd.hit ==> rd.began < |s.commits|)
      && (rd.began == |s.commits| ==> rd.active == s.mem[0])
      && (!rd.hit ==> Slot(s.mem, rd.active) == SlotWords(s.commits[rd.began - 1])
                      && Agrees(rd.got, s.commits[rd.began - 1]))
  }

  ghost predicate Inv(s: State) {
    MemSound(s) && GoalSound(s) && forall r :: 0 <= r < |s.readers| ==> ReaderSound(s, s.readers[r])
  }
}

/** What such a reader can be sure of. */
module BundleWordSafety {
  import opened Words
  import opened TcBundle
  import opened BundleWordReaders

  lemma InitInv(t: Tuple, n: nat)
    ensures Inv(Init(t, n))
  {
  }

  lemma SlotsOfWords(active: u32, t0: Tuple, t1: Tuple)
    ensures var ws := BundleWords(active, t0, t1);
            |ws| == 14 && ws[0] == active && ws[1] == 0 && Slot(ws, 0) == SlotWords(t0) && Slot(ws, 1) == SlotWords(t1)
  {
  }

  lemma WordsAreGoal(mem: seq<u32>, t: Tuple, next: Tuple, t0: Tuple, t1: Tuple)
    requires |mem| == 14 && mem[0] < 2 && Slot(mem, mem[0]) == SlotWords(t)
    requires if mem[0] == 0 then t0 == t && t1 == next else t0 == next && t1 == t
    ensures IsGoal(mem, BundleWords(mem[0], t0, t1), BundleWords(1 - mem[0], t0, t1), next)
  {
    SlotsOfWords(mem[0], t0, t1);
    assert BundleWords(1 - mem[0], t0, t1) == BundleWords(mem[0], t0, t1)[0 := 1 - mem[0]];
  }

  lemma StagedWords(at: nat, current: Tuple, next: Tuple, flag: u32, t0: Tuple, t1: Tuple)
    requires if at == 0 then t0 == current && t1 == next else t0 == next && t1 == current
    ensures Unpack(Staged(at, current, next, flag)) == BundleWords(flag, t0, t1)
  {
    BundleRoundTrip(flag, t0, t1);
    PackUnpack(BundleWords(flag, t0, t1), []);
  }

  lemma GoalsOfStaged(mem: seq<u32>, t: Tuple, next: Tuple)
    requires |mem| == 14 && mem[0] < 2 && Slot(mem, mem[0]) == SlotWords(t)
    ensures var a := mem[0];
            IsGoal(mem, Unpack(Staged(a, t, next, a)), Unpack(Staged(a, t, next, 1 - a)), next)
  {
    var a := mem[0];
    var t0, t1 := if a == 0 then t else next, if a == 0 then next else t;
    StagedWords(a, t, next, a, t0, t1);
    StagedWords(a, t, next, 1 - a, t0, t1);
    WordsAreGoal(mem, t, next, t0, t1);
  }

  lemma SlotOfMem(mem: seq<u32>, a: nat)
    requires |mem| == 14 && a < 2
    ensures SlotAt(Pack(mem), a)
            == Tuple(mem[2 + 6 * a], mem[3 + 6 * a], mem[4 + 6 * a], mem[5 + 6 * a], mem[6 + 6 * a])
  {
    forall k | 0 <= k < 14
      ensures U32At(Pack(mem), 4 * k) == mem[k]
    {
      PackAt(mem, k);
    }
    SlotFromWords(Pack(mem), mem, a);
  }

  lemma LiveOfMem(mem: seq<u32>, t: Tuple)
    requires |mem| == 14 && mem[0] < 2 && Slot(mem, mem[0]) == SlotWords(t)
    ensures Active(Pack(mem)) == mem[0] && Live(Pack(mem)) == t
  {
    var raw, a := Pack(mem), mem[0];
    PackAt(mem, 0);
    assert U32At(raw, 4 * 0) == a;
    SlotOfMem(mem, a);
    var sl := Slot(mem, a);
    assert sl[0] == mem[2 + 6 * a] && sl[1] == mem[3 + 6 * a] && sl[2] == mem[4 + 6 * a]
        && sl[3] == mem[5 + 6 * a] && sl[4] == mem[6 + 6 * a];
  }

  lemma GoalsOfModify(mem: seq<u32>, t: Tuple, c: Change)
    requires |mem| == 14 && mem[0] < 2 && mem[1] == 0 && Slot(mem, mem[0]) == SlotWords(t)
    ensures Live(Pack(mem)) == t
    ensures var w, t' := Modify(Pack(mem), c), Apply(t, c);
            w.Some? ==> (t'.Some? && IsGoal(mem, Unpack(w.value.step1), Unpack(w.value.step2), t'.value))
  {
    LiveOfMem(mem, t);
    if Apply(t, c).Some? {
      GoalsOfStaged(mem, t, Apply(t, c).value);
    }
  }

  lemma NoneDone()
    ensures !AllOf({})
  {
    var none: set<nat> := {};
    assert 0 !in none;
  }

  lemma BeginKeepsMem(s: State, c: Change)
    requires MemSound(s) && GoalSound(s) && Enabled(s, Begin(c))
    ensures MemSound(Next(s, Begin(c))) && GoalSound(Next(s, Begin(c)))
  {
    if Modify(Pack(s.mem), c).Some? {
      NoneDone();
      GoalsOfModify(s.mem, s.commits[|s.commits| - 1], c);
    }
  }

  lemma SameWords(m: seq<u32>, m': seq<u32>, a: nat)
    requires |m| == |m'| == 14 && a < 2
    ensures (forall j :: 2 + 6 * a <= j < 8 + 6 * a ==> m[j] == m'[j]) <==> Slot(m, a) == Slot(m', a)
  {
    if Slot(m, a) == Slot(m', a) {
      forall j | 2 + 6 * a <= j < 8 + 6 * a
        ensures m[j] == m'[j]
      {
        assert m[j] == Slot(m, a)[j - 2 - 6 * a] && m'[j] == Slot(m', a)[j - 2 - 6 * a];
      }
    }
  }

  lemma StagePut(s: State, p: nat)
    requires MemSound(s) && GoalSound(s) && Enabled(s, Put(p)) && s.writer.First?
    ensures MemSound(Next(s, Put(p))) && GoalSound(Next(s, Put(p)))
    ensures Slot(Next(s, Put(p)).mem, s.mem[0]) == Slot(s.mem, s.mem[0]) && Next(s, Put(p)).mem[0] == s.mem[0]
  {
    var s', a := Next(s, Put(p)), s.mem[0];
    SameWords(s.mem, s.writer.goal, a);
    SameWords(s.mem, s'.mem, a);
    if s'.writer.Second? {
      NoneDone();
      assert s'.mem == s.writer.goal;
      SameWords(s.writer.goal, s.writer.goal2, 1 - a);
    }
  }

  /** Step 1's value holds the new tuple in the slot that is not active. */
  lemma StagedSlot(s: State)
    requires Inv(s) && s.writer.First?
    ensures |s.writer.goal| == 14 && Slot(s.writer.goal, 1 - s.mem[0]) == SlotWords(s.writer.next)
  {
  }

  lemma CommitPut(s: State, p: nat)
    requires MemSound(s) && GoalSound(s) && Enabled(s, Put(p)) && s.writer.Second?
    ensures MemSound(Next(s, Put(p))) && GoalSound(Next(s, Put(p)))
    ensures forall j :: 1 <= j < 14 ==> Next(s, Put(p)).mem[j] == s.mem[j]
  {
    var s' := Next(s, Put(p));
    SameWords(s'.mem, s.writer.goal2, s.writer.goal2[0]);
    SameWords(s'.mem, s.mem, s'.mem[0]);
  }

  lemma PutKeepsReaders(s: State, p: nat, r: nat)
    requires Inv(s) && Enabled(s, Put(p)) && MemSound(Next(s, Put(p))) && r < |s.readers|
    ensures ReaderSound(Next(s, Put(p)), Next(s, Put(p)).readers[r])
  {
    assert ReaderSound(s, s.readers[r]);
    var rd, s' := s.readers[r], Next(s, Put(p));
    if rd.Loading? && !s'.readers[r].hit {
      if s.writer.First? {
        StagePut(s, p);
        SameWords(s.mem, s'.mem, rd.active);
      } else {
        CommitPut(s, p);
        SameWords(s.mem, s'.mem, rd.active);
      }
    }
  }

  lemma StepKeepsMem(s: State, step: Step)
    requires Inv(s) && Enabled(s, step)
    ensures MemSound(Next(s, step)) && GoalSound(Next(s, step))
  {
    match step
    case Begin(c) => BeginKeepsMem(s, c);
    case Put(p) =>
      if s.writer.First? {
        StagePut(s, p);
      } else {
        CommitPut(s, p);
      }
    case Flag(_) =>
    case Load(_, _) =>
  }

  lemma FlagStartsReader(s: State, r: nat)
    requires MemSound(s) && Enabled(s, Flag(r))
    ensures MemSound(Next(s, Flag(r))) && ReaderSound(Next(s, Flag(r)), Next(s, Flag(r)).readers[r])
  {
  }

  lemma LoadKeepsReader(s: State, r: nat, k: nat)
    requires MemSound(s) && Enabled(s, Load(r, k)) && ReaderSound(s, s.readers[r])
    ensures MemSound(Next(s, Load(r, k))) && ReaderSound(Next(s, Load(r, k)), Next(s, Load(r, k)).readers[r])
  {
    var rd := s.readers[r];
    assert s.mem[2 + 6 * rd.active + k] == Slot(s.mem, rd.active)[k];
  }

  lemma StepKeepsReader(s: State, step: Step, r: nat)
    requires Inv(s) && Enabled(s, step) && MemSound(Next(s, step)) && r < |s.readers|
    ensures r < |Next(s, step).readers| && ReaderSound(Next(s, step), Next(s, step).readers[r])
  {
    assert ReaderSound(s, s.readers[r]);
    match step
    case Begin(_) =>
    case Put(p) => PutKeepsReaders(s, p, r);
    case Flag(i) =>
      if r == i { FlagStartsReader(s, r); }
    case Load(i, k) =>
      if r == i { LoadKeepsReader(s, r, k); }
  }

  lemma StepKeepsInv(s: State, step: Step)
    requires Inv(s) && Enabled(s, step)
    ensures Inv(Next(s, step)) && |Next(s, step).readers| == |s.readers|
  {
    StepKeepsMem(s, step);
    forall r | 0 <= r < |s.readers|
      ensures ReaderSound(Next(s, step), Next(s, step).readers[r])
    {
      StepKeepsReader(s, step, r);
    }
  }

  /** The model blocks nobody: a copy in progress can always go on, with any word not yet copied, and a reader that
      has read the flag can load any word of its slot. */
  lemma NeverBlocked(s: State)
    requires Inv(s)
    ensures !s.writer.Free? ==> forall p: nat :: p < 14 && p !in s.writer.done ==> Enabled(s, Put(p))
    ensures !s.writer.Free? ==> exists p: nat :: p < 14 && Enabled(s, Put(p))
    ensures forall r: nat, k: nat ::
              r < |s.readers| && s.readers[r].Loading? && k < 6 ==> Enabled(s, Load(r, k))
  {
    if !s.writer.Free? {
      var p: nat :| p < 14 && p !in s.writer.done;
      assert Enabled(s, Put(p));
    }
    forall r: nat, k: nat | r < |s.readers| && s.readers[r].Loading? && k < 6
      ensures Enabled(s, Load(r, k))
    {
      assert ReaderSound(s, s.readers[r]);
    }
  }

  lemma {:induction false} RunKeepsInv(s: State, steps: seq<Step>)
    requires Inv(s) && Legal(s, steps)
    ensures Inv(Exec(s, steps)) && |Exec(s, steps).readers| == |s.readers|
    decreases |steps|
  {
    if steps != [] {
      StepKeepsInv(s, steps[0]);
      RunKeepsInv(Next(s, steps[0]), steps[1..]);
    }
  }

  /**
   * Double buffering survives word-granular writes. In every run, every word a reader has loaded, whichever and in
   * whatever order, belongs to the tuple that was committed when it read the flag, provided no later modification's
   * step 1 wrote into its slot meanwhile; and such a write can only come after another modification has committed.
   */
  lemma WordReadersSeeCommits(t: Tuple, n: nat, steps: seq<Step>, r: nat)
    requires Legal(Init(t, n), steps) && r < n
    ensures var s := Exec(Init(t, n), steps);
            && r < |s.readers|
            && var rd := s.readers[r];
               rd.Loading? ==>
                 && 0 < rd.began <= |s.commits|
                 && (!rd.hit ==> Agrees(rd.got, s.commits[rd.began - 1]))
                 && (rd.hit ==> rd.began < |s.commits|)
  {
    InitInv(t, n);
    RunKeepsInv(Init(t, n), steps);
    var s := Exec(Init(t, n), steps);
    assert ReaderSound(s, s.readers[r]);
  }
}
