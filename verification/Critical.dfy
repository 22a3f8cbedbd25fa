/**
  Triple-redundant critical state behind a voter (flight/core/critical.c), and the
  mode question asked through it (flight/core/mode.c).
*/
module Critical {
  import opened Words
  import opened Bits

  datatype Copy = Copy(value: uint32, checksum: uint32)

  const COPIES := 3

  function Seed(i: nat): uint32
    requires i < COPIES
  {
    if i == 0 then 0xA5A50001 else if i == 1 then 0x5A5A0002 else 0xC3C30003
  }

  function ChecksumOf(value: uint32, seed: uint32): uint32 {
    Wrap32(Xor(value, seed) + value * 128 + value / 8)
  }

  predicate Intact(c: Copy, i: nat)
    requires i < COPIES
  {
    c.checksum == ChecksumOf(c.value, Seed(i))
  }

  /** What `write_copy` leaves in copy `i`. */
  function FreshCopy(i: nat, v: uint32): Copy
    requires i < COPIES
  {
    Copy(v, ChecksumOf(v, Seed(i)))
  }

  function Fresh(v: uint32): seq<Copy> {
    [FreshCopy(0, v), FreshCopy(1, v), FreshCopy(2, v)]
  }

  // ---- what the vote means ------------------------------------------------

  /** Copy `i` passes its own checksum and holds `v`. */
  predicate Holds(cs: seq<Copy>, i: nat, v: uint32)
    requires |cs| == COPIES && i < COPIES
  {
    Intact(cs[i], i) && cs[i].value == v
  }

  /** Two different copies hold `v`. */
  ghost predicate Majority(cs: seq<Copy>, v: uint32)
    requires |cs| == COPIES
  {
    exists i: nat, j: nat :: i < j < COPIES && Holds(cs, i, v) && Holds(cs, j, v)
  }

  lemma MajorityIsUnique(cs: seq<Copy>, v: uint32, w: uint32)
    requires |cs| == COPIES && Majority(cs, v) && Majority(cs, w)
    ensures v == w
  {
  }

  /** The value a majority holds, if there is one. */
  ghost function Winner(cs: seq<Copy>): (r: Option<uint32>)
    requires |cs| == COPIES
    ensures r.Some? ==> Majority(cs, r.value)
    ensures r.None? ==> forall v :: !Majority(cs, v)
  {
    if exists v :: Majority(cs, v) then var v :| Majority(cs, v); Some(v) else None
  }

  lemma WinnerIs(cs: seq<Copy>, v: uint32)
    requires |cs| == COPIES && Majority(cs, v)
    ensures Winner(cs) == Some(v)
  {
    MajorityIsUnique(cs, v, Winner(cs).value);
  }

  function Dissenters(cs: seq<Copy>, v: uint32, upto: nat): nat
    requires |cs| == COPIES && upto <= COPIES
  {
    if upto == 0 then 0
    else Dissenters(cs, v, upto - 1) + if Holds(cs, upto - 1, v) then 0 else 1
  }

  /** The copies and the three counters, with the per-item latch. */
  datatype State = State(copies: seq<Copy>, repairs: uint32, failedVotes: uint32,
                         unresolvableEvents: uint32, wasResolving: bool)

  ghost function AfterVote(s: State): State
    requires |s.copies| == COPIES
  {
    match Winner(s.copies)
    case Some(v) =>
      s.(copies := Fresh(v), wasResolving := true,
         repairs := Wrap32(s.repairs + Dissenters(s.copies, v, COPIES)))
    case None =>
      s.(failedVotes := Inc(s.failedVotes), wasResolving := false,
         unresolvableEvents := if s.wasResolving then Inc(s.unresolvableEvents) else s.unresolvableEvents)
  }

  /** The one registered item, `obc_critical_mode`, and the voter over it. */
  class Voter {
    const copies: array<Copy>
    var repairs: uint32
    var failedVotes: uint32
    var unresolvableEvents: uint32
    var wasResolving: bool
    // `obc_mode`, the word the host reads; nothing in flight believes it
    var mirror: uint32

    ghost predicate Valid()
      reads this
    {
      copies.Length == COPIES
    }

    ghost function View(): State
      reads this, copies
    {
      State(copies[..], repairs, failedVotes, unresolvableEvents, wasResolving)
    }

    constructor (initial: uint32)
      ensures Valid() && fresh(copies)
      ensures View() == State(Fresh(initial), 0, 0, 0, true)
    {
      var cells := new Copy[3](i requires 0 <= i < 3 => FreshCopy(i, initial));
      copies := cells;
      repairs, failedVotes, unresolvableEvents, wasResolving, mirror := 0, 0, 0, true, initial;
      new;
      assert copies[..] == Fresh(initial);
    }

    /** `obc_critical_set`. */
    method Set(v: uint32)
      requires Valid()
      modifies copies
      ensures View() == old(View()).(copies := Fresh(v))
    {
      for i := 0 to COPIES
        invariant forall k: nat :: k < i ==> copies[k] == FreshCopy(k, v)
      {
        copies[i] := FreshCopy(i, v);
      }
      assert copies[..] == Fresh(v);
    }

    /** How many copies hold what copy `i` holds. */
    method Agreeing(i: nat) returns (agreeing: nat)
      requires Valid() && i < COPIES && Intact(copies[i], i)
      ensures agreeing >= 2 <==>
              exists j: nat :: j < COPIES && j != i && Holds(copies[..], j, copies[i].value)
    {
      agreeing := 1;
      for j := 0 to COPIES
        invariant agreeing >= 1
        invariant agreeing >= 2 <==>
                  exists k: nat :: k < j && k != i && Holds(copies[..], k, copies[i].value)
      {
        if j == i {
          continue;
        }
        if Intact(copies[j], j) && copies[j].value == copies[i].value {
          assert Holds(copies[..], j, copies[i].value);
          agreeing := agreeing + 1;
        }
      }
    }

    /** Rewrites every copy that does not hold the winner, counting each. */
    method Repair(winner: uint32)
      requires Valid()
      modifies this`repairs, copies
      ensures copies[..] == Fresh(winner)
      ensures repairs == Wrap32(old(repairs) + Dissenters(old(copies[..]), winner, COPIES))
    {
      hide ChecksumOf;
      for j := 0 to COPIES
        invariant forall k: nat :: k < j ==> copies[k] == FreshCopy(k, winner)
        invariant forall k: nat :: j <= k < COPIES ==> copies[k] == old(copies[k])
        invariant repairs == Wrap32(old(repairs) + Dissenters(old(copies[..]), winner, j))
      {
        assert copies[j] == old(copies[..])[j];
        IncOfSum(old(repairs), Dissenters(old(copies[..]), winner, j));
        if !Intact(copies[j], j) || copies[j].value != winner {
          copies[j] := FreshCopy(j, winner);
          repairs := Inc(repairs);
        }
      }
      assert copies[..] == Fresh(winner);
    }

    method Vote() returns (r: Option<uint32>)
      requires Valid()
      modifies this`repairs, this`failedVotes, this`unresolvableEvents, this`wasResolving, copies
      ensures r == Winner(old(copies[..]))
      ensures View() == AfterVote(old(View()))
    {
      hide ChecksumOf;
      for i := 0 to COPIES
        invariant View() == old(View())
        invariant forall k: nat, j: nat, v ::
                    k < i && j < COPIES && j != k && Holds(copies[..], k, v) ==> !Holds(copies[..], j, v)
      {
        if !Intact(copies[i], i) {
          continue;
        }
        var agreeing := Agreeing(i);
        if agreeing >= 2 {
          var winner := copies[i].value;
          assert Holds(copies[..], i, winner);
          WinnerIs(copies[..], winner);
          Repair(winner);
          wasResolving := true;
          return Some(winner);
        }
      }
      failedVotes := Inc(failedVotes);
      if wasResolving {
        wasResolving := false;
        unresolvableEvents := Inc(unresolvableEvents);
      }
      return None;
    }

    /** `obc_critical_scrub` over the registry of one item: false when a vote failed. */
    method Scrub() returns (ok: bool)
      requires Valid()
      modifies this`repairs, this`failedVotes, this`unresolvableEvents, this`wasResolving, copies
      ensures ok <==> Winner(old(copies[..])).Some?
      ensures View() == AfterVote(old(View()))
    {
      var r := Vote();
      ok := r.Some?;
    }

    /** `obc_mode_is_safe`: no majority is answered, and shown to the host, as safe. */
    method ModeIsSafe() returns (safe: bool)
      requires Valid()
      modifies this`repairs, this`failedVotes, this`unresolvableEvents, this`wasResolving, this`mirror, copies
      ensures Winner(old(copies[..])) == None ==> safe && mirror == SAFE
      ensures forall v :: Winner(old(copies[..])) == Some(v) ==> mirror == v && (safe <==> v == SAFE)
      ensures View() == AfterVote(old(View()))
    {
      var r := Vote();
      mirror := if r.Some? then r.value else SAFE;
      safe := SaysSafe(r);
    }
  }

  const SAFE: uint32 := 1

  predicate SaysSafe(vote: Option<uint32>) {
    match vote
    case None => true
    case Some(v) => v == SAFE
  }

  // ---- every interleaving -------------------------------------------------

  datatype Event =
    | Set(v: uint32)
    | Get
    | Scrub
    | Corrupt(i: nat, garbage: Copy)

  predicate Votes(e: Event) {
    e.Get? || e.Scrub?
  }

  ghost function Step(s: State, e: Event): (s': State)
    requires |s.copies| == COPIES
    ensures |s'.copies| == COPIES
  {
    match e
    case Set(v) => s.(copies := Fresh(v))
    case Get => AfterVote(s)
    case Scrub => AfterVote(s)
    case Corrupt(i, garbage) => if i < COPIES then s.(copies := s.copies[i := garbage]) else s
  }

  ghost function Run(s: State, es: seq<Event>): (s': State)
    requires |s.copies| == COPIES
    ensures |s'.copies| == COPIES
  {
    if es == [] then s else Step(Run(s, es[..|es| - 1]), es[|es| - 1])
  }

  /** The copies overwritten since the last vote or write. */
  function Touched(es: seq<Event>): set<nat> {
    if es == [] then {}
    else match es[|es| - 1]
      case Corrupt(i, _) => Touched(es[..|es| - 1]) + {i}
      case _ => {}
  }

  function LastSet(es: seq<Event>, before: uint32): uint32 {
    if es == [] then before
    else match es[|es| - 1]
      case Set(v) => v
      case _ => LastSet(es[..|es| - 1], before)
  }

  /** At no moment have two different copies been overwritten since the last vote or write. */
  ghost predicate OneCopyAtATime(es: seq<Event>) {
    forall n: nat, i, j :: n <= |es| && i in Touched(es[..n]) && j in Touched(es[..n]) ==> i == j
  }

  lemma {:induction false} UntouchedCopiesHold(s: State, es: seq<Event>, v0: uint32)
    requires s.copies == Fresh(v0) && OneCopyAtATime(es)
    ensures forall i: nat :: i < COPIES && i !in Touched(es) ==>
              Run(s, es).copies[i] == FreshCopy(i, LastSet(es, v0))
    ensures Winner(Run(s, es).copies) == Some(LastSet(es, v0))
    ensures Run(s, es).failedVotes == s.failedVotes
    ensures Run(s, es).unresolvableEvents == s.unresolvableEvents
  {
    hide ChecksumOf;
    if es == [] {
    } else {
      var prefix := es[..|es| - 1];
      assert OneCopyAtATime(prefix) by {
        forall n: nat | n <= |prefix| ensures prefix[..n] == es[..n] { }
      }
      UntouchedCopiesHold(s, prefix, v0);
    }
    assert es[..|es|] == es;
    TwoFreshCopiesWin(Run(s, es).copies, Touched(es), LastSet(es, v0));
  }

  lemma TwoFreshCopiesWin(cs: seq<Copy>, hit: set<nat>, v: uint32)
    requires |cs| == COPIES
    requires forall i: nat :: i < COPIES && i !in hit ==> cs[i] == FreshCopy(i, v)
    requires forall i, j :: i in hit && j in hit ==> i == j
    ensures Winner(cs) == Some(v)
  {
    hide ChecksumOf;
    var i: nat := if 0 in hit then 1 else 0;
    var j: nat := if 0 in hit || 1 in hit then 2 else 1;
    assert Holds(cs, i, v) && Holds(cs, j, v);
    WinnerIs(cs, v);
  }

  /**
    Self-repair.  Under any interleaving of writes, reads, scrubs and corruption, with at
    most one copy overwritten between votes, every read returns the last value written,
    every vote leaves three intact equal copies, and no vote ever fails.
  */
  lemma SelfRepair(s: State, es: seq<Event>, v0: uint32, k: nat)
    requires s.copies == Fresh(v0) && OneCopyAtATime(es)
    requires k < |es| && Votes(es[k])
    ensures Winner(Run(s, es[..k]).copies) == Some(LastSet(es[..k], v0))
    ensures Run(s, es[..k + 1]).copies == Fresh(LastSet(es[..k], v0))
    ensures Run(s, es[..k + 1]).failedVotes == s.failedVotes
    ensures Run(s, es[..k + 1]).unresolvableEvents == s.unresolvableEvents
  {
    forall n: nat | n <= k ensures es[..k][..n] == es[..n] { }
    UntouchedCopiesHold(s, es[..k], v0);
    assert es[..k + 1][..k] == es[..k];
  }

  /** So the mode question is answered safe exactly when the last mode written was safe. */
  lemma ModeIsLastSet(s: State, es: seq<Event>, v0: uint32, k: nat)
    requires s.copies == Fresh(v0) && OneCopyAtATime(es)
    requires k < |es| && es[k].Get?
    ensures SaysSafe(Winner(Run(s, es[..k]).copies)) <==> LastSet(es[..k], v0) == 1
  {
    hide Winner, Run, LastSet, OneCopyAtATime;
    SelfRepair(s, es, v0, k);
  }

  // ---- what a vote repairs ------------------------------------------------

  lemma HoldsIsFresh(cs: seq<Copy>, i: nat, v: uint32)
    requires |cs| == COPIES && i < COPIES
    ensures Holds(cs, i, v) <==> cs[i] == FreshCopy(i, v)
  {
    hide ChecksumOf;
  }

  /** A vote counts one repair for every copy it had to rewrite, in any state whatever. */
  lemma RepairsAreRewrites(s: State)
    requires |s.copies| == COPIES
    ensures match Winner(s.copies)
            case None => AfterVote(s).repairs == s.repairs && AfterVote(s).copies == s.copies
            case Some(v) =>
              && AfterVote(s).copies == Fresh(v)
              && AfterVote(s).repairs == Wrap32(s.repairs + (if s.copies[0] == Fresh(v)[0] then 0 else 1)
                                                + (if s.copies[1] == Fresh(v)[1] then 0 else 1)
                                                + (if s.copies[2] == Fresh(v)[2] then 0 else 1))
  {
    hide ChecksumOf, Winner, Holds;
    if Winner(s.copies).Some? {
      var v := Winner(s.copies).value;
      HoldsIsFresh(s.copies, 0, v);
      HoldsIsFresh(s.copies, 1, v);
      HoldsIsFresh(s.copies, 2, v);
      assert Dissenters(s.copies, v, 3) == Dissenters(s.copies, v, 2) + if Holds(s.copies, 2, v) then 0 else 1;
      assert Dissenters(s.copies, v, 2) == Dissenters(s.copies, v, 1) + if Holds(s.copies, 1, v) then 0 else 1;
    }
  }

  /** Whether each vote of a run resolved, in order. */
  ghost function Outcomes(s: State, es: seq<Event>): seq<bool>
    requires |s.copies| == COPIES
  {
    if es == [] then []
    else
      var prefix := es[..|es| - 1];
      Outcomes(s, prefix) + if Votes(es[|es| - 1]) then [Winner(Run(s, prefix).copies).Some?] else []
  }

  /** Maximal blocks of failing votes. */
  function FailingBlocks(outcomes: seq<bool>): nat {
    if outcomes == [] then 0
    else
      var n := |outcomes| - 1;
      FailingBlocks(outcomes[..n]) + if !outcomes[n] && (n == 0 || outcomes[n - 1]) then 1 else 0
  }

  function Failing(outcomes: seq<bool>): nat {
    if outcomes == [] then 0
    else Failing(outcomes[..|outcomes| - 1]) + if outcomes[|outcomes| - 1] then 0 else 1
  }

  /**
    Whatever corruption strikes, `unresolvable_events` counts the
    maximal blocks of failing votes while `failed_votes` counts the votes themselves.
  */
  lemma {:induction false} EventsCountBlocks(s: State, es: seq<Event>)
    requires |s.copies| == COPIES && s.wasResolving
    ensures Counted(s, Run(s, es), Outcomes(s, es))
  {
    if es == [] {
    } else {
      hide *;
      var prefix, t := es[..|es| - 1], Run(s, es[..|es| - 1]);
      EventsCountBlocks(s, prefix);
      LastStep(s, es);
      if Votes(es[|es| - 1]) {
        VoteCounted(s, t, Outcomes(s, prefix), Outcomes(s, es));
      } else {
        OtherStepCounted(s, t, Outcomes(s, prefix), es[|es| - 1]);
      }
    }
  }

  lemma LastStep(s: State, es: seq<Event>)
    requires |s.copies| == COPIES && es != []
    ensures var prefix, e := es[..|es| - 1], es[|es| - 1];
            var t := Run(s, prefix);
            && Run(s, es) == Step(t, e)
            && (Votes(e) ==> Run(s, es) == AfterVote(t)
                             && Outcomes(s, es) == Outcomes(s, prefix) + [Winner(t.copies).Some?])
            && (!Votes(e) ==> Outcomes(s, es) == Outcomes(s, prefix))
  {
    hide ChecksumOf, Winner, AfterVote;
  }

  lemma OtherStepCounted(s: State, t: State, o: seq<bool>, e: Event)
    requires |t.copies| == COPIES && Counted(s, t, o) && !Votes(e)
    ensures Counted(s, Step(t, e), o)
  {
    hide ChecksumOf;
  }

  /** The counters of `t`, read as what a run from `s` with these vote outcomes must show. */
  predicate Counted(s: State, t: State, o: seq<bool>) {
    && t.unresolvableEvents == Wrap32(s.unresolvableEvents + FailingBlocks(o))
    && t.failedVotes == Wrap32(s.failedVotes + Failing(o))
    && t.wasResolving == (o == [] || o[|o| - 1])
  }

  /** One more vote keeps the counters equal to their reading of the outcomes. */
  lemma {:induction false} VoteCounted(s: State, t: State, p: seq<bool>, o: seq<bool>)
    requires |t.copies| == COPIES && o == p + [Winner(t.copies).Some?]
    requires Counted(s, t, p)
    ensures Counted(s, AfterVote(t), o)
  {
    hide ChecksumOf, Winner;
    assert o[..|p|] == p;
    IncOfSum(s.unresolvableEvents, FailingBlocks(p));
    IncOfSum(s.failedVotes, Failing(p));
  }

  // ---- what corruption cannot forge ---------------------------------------

  lemma ChecksumTellsSeeds(v: uint32, s: uint32, t: uint32)
    requires s != t
    ensures ChecksumOf(v, s) != ChecksumOf(v, t)
  {
    XorWord(v, s);
    XorWord(v, t);
    if Xor(v, s) == Xor(v, t) {
      XorInjective(v, s, t);
      assert false;
    }
    WrapApart(Xor(v, s), Xor(v, t), v * 128 + v / 8);
  }

  lemma WrapApart(a: uint32, b: uint32, c: int)
    requires a != b
    ensures Wrap32(a + c) != Wrap32(b + c)
  {
  }

  /** Different seeds: one pattern cannot be self-consistent in two copies. */
  lemma SamePatternIntactOnce(c: Copy, i: nat, j: nat)
    requires i < COPIES && j < COPIES && i != j
    ensures !(Intact(c, i) && Intact(c, j))
  {
    ChecksumTellsSeeds(c.value, Seed(i), Seed(j));
  }

  /** Three copies freshly written with `v`, those in `hit` then overwritten with `pattern`. */
  function Burst(v: uint32, pattern: Copy, hit: set<nat>): seq<Copy> {
    [if 0 in hit then pattern else FreshCopy(0, v),
     if 1 in hit then pattern else FreshCopy(1, v),
     if 2 in hit then pattern else FreshCopy(2, v)]
  }

  /**
    After a write of `v`, one identical pattern over two or three of the copies never
    makes the voter answer anything but `v`.  Over all three there is no verdict; over
    two there is one exactly when the pattern is itself an intact `v` in one of them.
  */
  lemma IdenticalPatternNeverForges(v: uint32, pattern: Copy, i: nat, j: nat, all: bool)
    requires i < j < COPIES
    ensures var hit := if all then {0, 1, 2} else {i, j};
            var r := Winner(Burst(v, pattern, hit));
            && (r.Some? ==> r.value == v)
            && (r.Some? <==> !all && (pattern == FreshCopy(i, v) || pattern == FreshCopy(j, v)))
  {
    SamePatternIntactOnce(pattern, 0, 1);
    SamePatternIntactOnce(pattern, 0, 2);
    SamePatternIntactOnce(pattern, 1, 2);
    var cs := Burst(v, pattern, if all then {0, 1, 2} else {i, j});
    if !all && (pattern == FreshCopy(i, v) || pattern == FreshCopy(j, v)) {
      var kept := 3 - i - j;
      var good := if pattern == FreshCopy(i, v) then i else j;
      assert Holds(cs, kept, v) && Holds(cs, good, v);
      WinnerIs(cs, v);
    }
  }

  /** One upset: a bit of the value word or of the checksum word, flipped. */
  datatype Upset = Upset(inValue: bool, bit: nat)

  function Struck(c: Copy, u: Upset): (c': Copy)
    requires u.bit < 32
  {
    FlipWord(c.value, u.bit);
    FlipWord(c.checksum, u.bit);
    if u.inValue then c.(value := FlipBit(c.value, u.bit)) else c.(checksum := FlipBit(c.checksum, u.bit))
  }

  lemma FlipWord(v: uint32, k: nat)
    requires k < 32
    ensures FlipBit(v, k) < 0x1_0000_0000
  {
    FlipIsXor(v, k);
    Pow2Below(k, 32);
    Pow2Word();
    XorWord(v, Pow2(k));
  }

  /** The shift right by three sees bit `k` three places down, or not at all. */
  lemma FlipShiftedRight(v: nat, k: nat)
    ensures FlipBit(v, k) / 8 == if k < 3 then v / 8 else FlipBit(v / 8, k - 3)
    ensures k >= 3 ==> Bit(v, k) == Bit(v / 8, k - 3)
  {
    var f := FlipBit(v, k);
    assert f / 8 == f / 2 / 2 / 2 && v / 8 == v / 2 / 2 / 2;
    if k >= 1 { FlipUnfold(v, k); }
    if k >= 2 { FlipUnfold(v / 2, k - 1); }
    if k >= 3 {
      FlipUnfold(v / 2 / 2, k - 2);
      assert Bit(v, k) == Bit(v / 2, k - 1) == Bit(v / 2 / 2, k - 2) == Bit(v / 2 / 2 / 2, k - 3);
    }
  }

  /** How far one flipped bit moves the sum the checksum is taken from. */
  lemma FlipMovesSum(v: nat, seed: nat, k: nat) returns (n: nat, odd: int)
    ensures n <= k && odd % 2 == 1
    ensures Xor(FlipBit(v, k), seed) + FlipBit(v, k) * 128 + FlipBit(v, k) / 8
            - (Xor(v, seed) + v * 128 + v / 8) == Pow2(n) * odd
  {
    hide Xor, FlipBit, Bit, Pow2;
    XorFlip(v, seed, k);
    FlipShiftedRight(v, k);
    FlipMoves(v, k);
    FlipMoves(Xor(v, seed), k);
    var s := if Bit(Xor(v, seed), k) then -1 else 1;
    var t := if Bit(v, k) then -1 else 1;
    if k < 3 {
      n, odd := k, s + 128 * t;
    } else {
      FlipMoves(v / 8, k - 3);
      n, odd := k - 3, 8 * s + 1025 * t;
      Pow2Eighth(k);
    }
  }

  lemma Pow2Eighth(k: nat)
    requires k >= 3
    ensures Pow2(k) == 8 * Pow2(k - 3)
  {
    assert Pow2(k) == 2 * Pow2(k - 1) && Pow2(k - 1) == 2 * Pow2(k - 2) && Pow2(k - 2) == 2 * Pow2(k - 3);
  }

  lemma FlipBreaksChecksum(v: uint32, seed: uint32, k: nat)
    requires k < 32
    ensures FlipBit(v, k) < 0x1_0000_0000
    ensures ChecksumOf(FlipBit(v, k), seed) != ChecksumOf(v, seed)
  {
    hide Xor, FlipBit, Pow2;
    FlipWord(v, k);
    var n, odd := FlipMovesSum(v, seed, k);
    OddMultipleShows(n, odd, Xor(v, seed) + v * 128 + v / 8,
                     Xor(FlipBit(v, k), seed) + FlipBit(v, k) * 128 + FlipBit(v, k) / 8);
  }

  lemma StruckIsNotIntact(v: uint32, i: nat, u: Upset)
    requires i < COPIES && u.bit < 32
    ensures !Intact(Struck(FreshCopy(i, v), u), i)
  {
    if u.inValue {
      FlipBreaksChecksum(v, Seed(i), u.bit);
    } else {
      FlipMoves(FreshCopy(i, v).checksum, u.bit);
    }
  }

  /**
    After a write, one upset in each of two copies, and whatever happened to the third,
    the vote gives no verdict and the mode question is answered safe.
  */
  lemma TwoUpsetsGiveNoVerdict(v: uint32, i: nat, j: nat, u: Upset, w: Upset, cs: seq<Copy>)
    requires i < COPIES && j < COPIES && i != j && u.bit < 32 && w.bit < 32 && |cs| == COPIES
    requires cs[i] == Struck(FreshCopy(i, v), u) && cs[j] == Struck(FreshCopy(j, v), w)
    ensures Winner(cs) == None && SaysSafe(Winner(cs))
  {
    hide ChecksumOf;
    StruckIsNotIntact(v, i, u);
    StruckIsNotIntact(v, j, w);
  }
}
