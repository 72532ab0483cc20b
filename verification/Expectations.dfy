/** The partial order of mock expectations: what must be satisfied, and what is retired, before what. */
module Expectations {
  import opened Collections
  import opened Powers

  /** The immediate prerequisites of every expectation. */
  type Links = map<ExpectationBase, set<ExpectationBase>>

  /** Prerequisites are themselves known. */
  ghost predicate Known(links: Links) {
    forall e, p | e in links && p in links[e] :: p in links
  }

  /** And they were created earlier, which keeps them free of cycles. */
  ghost predicate Ordered(links: Links) {
    forall e, p | e in links && p in links[e] :: p in links && p.serial < e.serial
  }

  /** `p` is reached from `e` in one step or more, but no more than `n`. */
  ghost predicate ReachedIn(links: Links, e: ExpectationBase, p: ExpectationBase, n: nat) {
    n > 0 && e in links && (p in links[e] || exists q :: q in links[e] && ReachedIn(links, q, p, n - 1))
  }

  /** `p` is reached from `e` in one or more steps, on a graph that may have cycles. */
  ghost predicate IsPrerequisite(links: Links, e: ExpectationBase, p: ExpectationBase) {
    exists n: nat :: ReachedIn(links, e, p, n)
  }

  lemma IsPrerequisiteIff(links: Links, e: ExpectationBase, p: ExpectationBase)
    ensures IsPrerequisite(links, e, p) <==>
              e in links && (p in links[e] || exists q :: q in links[e] && IsPrerequisite(links, q, p))
  {
    if e in links && p in links[e] {
      assert ReachedIn(links, e, p, 1);
    } else if e in links && exists q :: q in links[e] && IsPrerequisite(links, q, p) {
      var q :| q in links[e] && IsPrerequisite(links, q, p);
      var n: nat :| ReachedIn(links, q, p, n);
      assert ReachedIn(links, e, p, n + 1);
    } else if IsPrerequisite(links, e, p) {
      var n: nat :| ReachedIn(links, e, p, n);
      var q :| q in links[e] && ReachedIn(links, q, p, n - 1);
      assert false;
    }
  }

  ghost predicate ClosedSet(links: Links, s: set<ExpectationBase>) {
    forall e, p | e in s && e in links && p in links[e] :: p in s
  }

  lemma {:induction false} ClosedSetHolds(links: Links, s: set<ExpectationBase>, e: ExpectationBase, p: ExpectationBase,
                                          n: nat)
    requires e in links && ReachedIn(links, e, p, n)
    requires ClosedSet(links, s) && links[e] <= s
    ensures p in s
  {
    if p !in links[e] {
      var q :| q in links[e] && ReachedIn(links, q, p, n - 1);
      ClosedSetHolds(links, s, q, p, n - 1);
    }
  }

  lemma {:induction false} StepFurther(links: Links, e: ExpectationBase, q: ExpectationBase, p: ExpectationBase, n: nat)
    requires q in links && ReachedIn(links, e, q, n) && p in links[q]
    ensures ReachedIn(links, e, p, n + 1)
  {
    if q in links[e] {
      assert ReachedIn(links, q, p, 1);
      LongerReach(links, q, p, 1, n);
    } else {
      var r :| r in links[e] && ReachedIn(links, r, q, n - 1);
      StepFurther(links, r, q, p, n - 1);
    }
  }

  lemma {:induction false} LongerReach(links: Links, e: ExpectationBase, p: ExpectationBase, m: nat, n: nat)
    requires m <= n && ReachedIn(links, e, p, m)
    ensures ReachedIn(links, e, p, n)
    decreases m
  {
    if p !in links[e] {
      var q :| q in links[e] && ReachedIn(links, q, p, m - 1);
      LongerReach(links, q, p, m - 1, n - 1);
    }
  }

  lemma PrerequisiteOfPrerequisite(links: Links, e: ExpectationBase, q: ExpectationBase, p: ExpectationBase)
    requires q in links && IsPrerequisite(links, e, q) && p in links[q]
    ensures IsPrerequisite(links, e, p)
  {
    var n: nat :| ReachedIn(links, e, q, n);
    StepFurther(links, e, q, p, n);
  }

  lemma {:induction false} ReachedEarlier(links: Links, e: ExpectationBase, p: ExpectationBase, n: nat)
    requires Ordered(links) && ReachedIn(links, e, p, n)
    ensures p in links && p.serial < e.serial
  {
    if p !in links[e] {
      var q :| q in links[e] && ReachedIn(links, q, p, n - 1);
      ReachedEarlier(links, q, p, n - 1);
    }
  }

  lemma PrerequisitesKnown(links: Links, e: ExpectationBase, p: ExpectationBase)
    requires Ordered(links) && IsPrerequisite(links, e, p)
    ensures p in links && p.serial < e.serial
  {
    var n: nat :| ReachedIn(links, e, p, n);
    ReachedEarlier(links, e, p, n);
  }

  /** A walk from `start` has retired the prerequisites in `now - before`; those whose own prerequisites
      are still to be retired wait in `work` or are in `current`. */
  ghost predicate Spreading(links: Links, start: ExpectationBase, before: set<ExpectationBase>, now: set<ExpectationBase>,
                            work: seq<ExpectationBase>, current: set<ExpectationBase>)
  {
    && before <= now <= before + PrerequisitesOf(links, start)
    && (forall e <- work :: e == start || e in PrerequisitesOf(links, start))
    && (forall e <- current :: e == start || e in PrerequisitesOf(links, start))
    && (forall e | e in links && (e == start || e in now - before) :: e in work || e in current || links[e] <= now)
  }

  lemma SpreadTo(links: Links, start: ExpectationBase, before: set<ExpectationBase>, now: set<ExpectationBase>,
                 work: seq<ExpectationBase>, exp: ExpectationBase, todo: set<ExpectationBase>, next: ExpectationBase)
    requires Known(links) && start in links && exp in links && next in todo && todo <= links[exp] <= todo + now
    requires Spreading(links, start, before, now, work, {exp})
    ensures next in PrerequisitesOf(links, start)
    ensures links[exp] <= todo - {next} + (now + {next})
    ensures next in now ==> now + {next} == now
    ensures next in links && Spreading(links, start, before, now + {next}, work + [next], {exp})
  {
    IsPrerequisiteIff(links, start, next);
    if exp != start {
      PrerequisiteOfPrerequisite(links, start, exp, next);
    }
  }

  lemma SpreadFrom(links: Links, start: ExpectationBase, before: set<ExpectationBase>, now: set<ExpectationBase>,
                   work: seq<ExpectationBase>)
    requires Known(links) && start in links && work != []
    requires Spreading(links, start, before, now, work, {})
    ensures var exp := work[|work| - 1];
            exp in links && Spreading(links, start, before, now, work[..|work| - 1], {exp})
  {
    assert work[|work| - 1] in work;
  }

  lemma SpreadOut(links: Links, start: ExpectationBase, before: set<ExpectationBase>, now: set<ExpectationBase>)
    requires Known(links) && start in links && ClosedSet(links, before) && before <= links.Keys
    requires Spreading(links, start, before, now, [], {})
    ensures now == before + PrerequisitesOf(links, start) && ClosedSet(links, now)
  {
    AllInClosed(links, now, start);
  }

  /** `p` is unsatisfied and is reached from `e` through satisfied prerequisites only. */
  ghost predicate Blocks(links: Links, satisfied: set<ExpectationBase>, e: ExpectationBase, p: ExpectationBase)
    decreases e.serial
  {
    && e in links
    && ((p in links[e] && p !in satisfied)
        || exists q :: q in links[e] && q in satisfied && q.serial < e.serial && Blocks(links, satisfied, q, p))
  }

  ghost function BlockersOf(links: Links, satisfied: set<ExpectationBase>, e: ExpectationBase): set<ExpectationBase> {
    set p | p in links && Blocks(links, satisfied, e, p)
  }

  /** An expectation is blocked by nothing exactly when all its prerequisites are satisfied. */
  lemma {:induction false} NoBlockers(links: Links, satisfied: set<ExpectationBase>, e: ExpectationBase)
    requires Ordered(links) && e in links
    ensures BlockersOf(links, satisfied, e) == {} <==> PrerequisitesOf(links, e) <= satisfied
    decreases e.serial
  {
    forall q | q in links[e] ensures BlockersOf(links, satisfied, q) == {} <==> PrerequisitesOf(links, q) <= satisfied {
      NoBlockers(links, satisfied, q);
    }
    forall p ensures IsPrerequisite(links, e, p) <==> p in links[e] || exists q :: q in links[e] && IsPrerequisite(links, q, p) {
      IsPrerequisiteIff(links, e, p);
    }
    if BlockersOf(links, satisfied, e) == {} {
      forall p | p in PrerequisitesOf(links, e) ensures p in satisfied {
        assert forall q <- links[e] :: q in satisfied by {
          assert forall q <- links[e] :: q !in satisfied ==> q in BlockersOf(links, satisfied, e);
        }
        if p !in links[e] {
          var q :| q in links[e] && IsPrerequisite(links, q, p);
          assert BlockersOf(links, satisfied, q) <= BlockersOf(links, satisfied, e);
          assert p in PrerequisitesOf(links, q);
        }
      }
    } else {
      var p :| p in BlockersOf(links, satisfied, e);
      if !(p in links[e] && p !in satisfied) {
        var q :| q in links[e] && q in satisfied && q.serial < e.serial && Blocks(links, satisfied, q, p);
        assert p in BlockersOf(links, satisfied, q);
        assert PrerequisitesOf(links, q) <= PrerequisitesOf(links, e);
      }
    }
  }

  /** A walk from `start` that steps through satisfied prerequisites has found `result`, and passed
      through `passed`; whoever in there may still lead it further waits in `work`, or is in `current`
      with `todo` left to look at. */
  ghost predicate Sifting(links: Links, satisfied: set<ExpectationBase>, start: ExpectationBase, result: set<ExpectationBase>,
                          passed: set<ExpectationBase>, work: seq<ExpectationBase>, current: set<ExpectationBase>,
                          todo: set<ExpectationBase>)
  {
    && result <= BlockersOf(links, satisfied, start)
    && result !! satisfied
    && passed <= satisfied
    && (forall e <- work :: e in links && BlockersOf(links, satisfied, e) <= BlockersOf(links, satisfied, start))
    && (forall e <- current :: e in links && links[e] <= todo + result + passed
                               && BlockersOf(links, satisfied, e) <= BlockersOf(links, satisfied, start))
    && (forall e | e in links && (e == start || e in passed) ::
          e in work || e in current || links[e] <= result + passed || BlockersOf(links, satisfied, e) == {})
  }

  lemma SiftFrom(links: Links, satisfied: set<ExpectationBase>, start: ExpectationBase, result: set<ExpectationBase>,
                 passed: set<ExpectationBase>, work: seq<ExpectationBase>)
    requires work != [] && Sifting(links, satisfied, start, result, passed, work, {}, {})
    ensures var exp := work[|work| - 1];
            exp in links && Sifting(links, satisfied, start, result, passed, work[..|work| - 1], {exp}, links[exp])
  {
    assert work[|work| - 1] in work;
  }

  /** The three ways to deal with a prerequisite `next` of `exp`: report it, walk on from it, or drop it
      because it leads nowhere. */
  lemma Report(links: Links, satisfied: set<ExpectationBase>, start: ExpectationBase, result: set<ExpectationBase>,
               passed: set<ExpectationBase>, work: seq<ExpectationBase>,
               exp: ExpectationBase, todo: set<ExpectationBase>, next: ExpectationBase)
    requires Ordered(links) && exp in links && next in links[exp] && next !in satisfied
    requires Sifting(links, satisfied, start, result, passed, work, {exp}, todo)
    ensures Sifting(links, satisfied, start, result + {next}, passed, work, {exp}, todo - {next})
  {
    assert next in BlockersOf(links, satisfied, exp);
  }

  lemma WalkOn(links: Links, satisfied: set<ExpectationBase>, start: ExpectationBase, result: set<ExpectationBase>,
               passed: set<ExpectationBase>, work: seq<ExpectationBase>,
               exp: ExpectationBase, todo: set<ExpectationBase>, next: ExpectationBase)
    requires Ordered(links) && exp in links && next in links[exp] && next in satisfied
    requires Sifting(links, satisfied, start, result, passed, work, {exp}, todo)
    ensures Sifting(links, satisfied, start, result, passed + {next}, work + [next], {exp}, todo - {next})
  {
    assert BlockersOf(links, satisfied, next) <= BlockersOf(links, satisfied, exp);
  }

  lemma Prune(links: Links, satisfied: set<ExpectationBase>, start: ExpectationBase, result: set<ExpectationBase>,
              passed: set<ExpectationBase>, work: seq<ExpectationBase>,
              exp: ExpectationBase, todo: set<ExpectationBase>, next: ExpectationBase)
    requires Ordered(links) && exp in links && next in links[exp]
    requires Consistent(links) && satisfied == Satisfied(links) && next.IsSatisfied() && next.callCount > 0
    requires Sifting(links, satisfied, start, result, passed, work, {exp}, todo)
    ensures Sifting(links, satisfied, start, result, passed + {next}, work, {exp}, todo - {next})
  {
    CalledIsUnblocked(links, next);
  }

  lemma SiftedThrough(links: Links, satisfied: set<ExpectationBase>, start: ExpectationBase, result: set<ExpectationBase>,
                      passed: set<ExpectationBase>, work: seq<ExpectationBase>, exp: ExpectationBase)
    requires Sifting(links, satisfied, start, result, passed, work, {exp}, {})
    ensures Sifting(links, satisfied, start, result, passed, work, {}, {})
  {
    assert exp in {exp};
  }

  lemma SiftOut(links: Links, satisfied: set<ExpectationBase>, start: ExpectationBase, result: set<ExpectationBase>,
                passed: set<ExpectationBase>)
    requires Ordered(links) && start in links
    requires Sifting(links, satisfied, start, result, passed, [], {}, {})
    ensures result == BlockersOf(links, satisfied, start)
    ensures result == {} <==> PrerequisitesOf(links, start) <= satisfied
  {
    forall p | p in BlockersOf(links, satisfied, start) ensures p in result {
      SiftedOut(links, satisfied, start, result, passed, start, p);
    }
    NoBlockers(links, satisfied, start);
  }

  lemma {:induction false} SiftedOut(links: Links, satisfied: set<ExpectationBase>, start: ExpectationBase,
                                     result: set<ExpectationBase>, passed: set<ExpectationBase>,
                                     e: ExpectationBase, p: ExpectationBase)
    requires Sifting(links, satisfied, start, result, passed, [], {}, {})
    requires e == start || e in passed
    requires p in links && Blocks(links, satisfied, e, p)
    ensures p in result
    decreases e.serial
  {
    if p in links[e] && p !in satisfied {
      assert p in BlockersOf(links, satisfied, e);
    } else {
      var q :| q in links[e] && q in satisfied && q.serial < e.serial && Blocks(links, satisfied, q, p);
      assert p in BlockersOf(links, satisfied, e);
      SiftedOut(links, satisfied, start, result, passed, q, p);
    }
  }

  class ExpectationBase {
    const serial: nat  // position in the order of creation
    const minCalls: nat
    const maxCalls: nat
    const retiresOnSaturation: bool
    var immediatePrerequisites: set<ExpectationBase>
    var retired: bool
    var callCount: nat

    constructor (serial: nat, minCalls: nat, maxCalls: nat, retiresOnSaturation: bool)
      ensures this.serial == serial && this.minCalls == minCalls && this.maxCalls == maxCalls
      ensures this.retiresOnSaturation == retiresOnSaturation
      ensures immediatePrerequisites == {} && !retired && callCount == 0
    {
      this.serial, this.minCalls, this.maxCalls := serial, minCalls, maxCalls;
      this.retiresOnSaturation := retiresOnSaturation;
      immediatePrerequisites, retired, callCount := {}, false, 0;
    }

    predicate IsSatisfied()
      reads this`callCount
    {
      minCalls <= callCount <= maxCalls
    }

    predicate IsSaturated()
      reads this`callCount
    {
      maxCalls <= callCount
    }

    method Retire(ghost links: Links)
      requires this in links
      modifies this`retired
      ensures retired && Retired(links) == old(Retired(links)) + {this}
    {
      retired := true;
    }

    method RetireAllPreRequisites(ghost links: Links)
      requires this in links && Known(links) && Linked(links) && ClosedSet(links, Retired(links))
      modifies links.Keys`retired
      ensures Retired(links) == old(Retired(links)) + PrerequisitesOf(links, this)
      ensures ClosedSet(links, Retired(links))
    {
      ghost var before := Retired(links);
      if retired {
        AllInClosed(links, before, this);
        return;
      }
      ghost var now := before;
      var expectations := [this];
      while expectations != []
        invariant Linked(links) && Retired(links) == now
        invariant Spreading(links, this, before, now, expectations, {})
        decreases links.Keys - now, |expectations|
      {
        var exp := expectations[|expectations| - 1];
        SpreadFrom(links, this, before, now, expectations);
        expectations := expectations[..|expectations| - 1];
        var todo := exp.immediatePrerequisites;
        ghost var rest, sofar := expectations, now;
        while todo != {}
          invariant Linked(links) && Retired(links) == now
          invariant todo <= links[exp] <= todo + now
          invariant Spreading(links, this, before, now, expectations, {exp})
          invariant sofar <= now && (sofar == now ==> expectations == rest)
          decreases todo
        {
          var next :| next in todo;
          SpreadTo(links, this, before, now, expectations, exp, todo, next);
          todo := todo - {next};
          if !next.retired {
            next.Retire(links);
            now := now + {next};
            expectations := expectations + [next];
          }
        }
      }
      SpreadOut(links, this, before, now);
    }

    /** Walks the prerequisites without remembering where it has been, and comes to an end if they have no cycle
        that is satisfied throughout. */
    method AllPrerequisitesAreSatisfied(ghost links: Links) returns (ok: bool)
      requires this in links && Known(links) && Linked(links) && NoCycle(Among(links, Satisfied(links)), this)
      ensures ok <==> PrerequisitesOf(links, this) <= Satisfied(links)
    {
      ghost var satisfied, b := Satisfied(links), |links.Keys| + 1;
      ghost var among := Among(links, satisfied);
      ghost var rank := RankOf(among);
      var expectations := [this];
      ghost var found := {};
      while expectations != []
        invariant Spreading(links, this, {}, found, expectations, {})
        invariant found <= satisfied && Reachable(among, this, expectations)
        decreases Load(b, rank, expectations)
      {
        var exp := expectations[|expectations| - 1];
        SpreadFrom(links, this, {}, found, expectations);
        ghost var before := expectations;
        FitsBelow(b, rank, links, expectations);
        assert exp in expectations;
        expectations := expectations[..|expectations| - 1];
        var todo := exp.immediatePrerequisites;
        while todo != {}
          invariant todo <= links[exp] <= todo + found
          invariant Spreading(links, this, {}, found, expectations, {exp})
          invariant found <= satisfied && Reachable(among, this, expectations)
          invariant Owed(b, rank, expectations, todo, exp) < Load(b, rank, before)
          decreases todo
        {
          var next :| next in todo;
          SpreadTo(links, this, {}, found, expectations, exp, todo, next);
          if !next.IsSatisfied() { return false; }
          Descend(among, this, exp, next);
          Spend(b, rank, todo, expectations, exp, next);
          todo := todo - {next};
          found := found + {next};
          expectations := expectations + [next];
        }
      }
      SpreadOut(links, this, {}, found);
      return true;
    }

    /** Collects the unsatisfied prerequisites, without looking beyond one that has been called. */
    method FindUnsatisfiedPrerequisites(ghost links: Links) returns (result: set<ExpectationBase>)
      requires this in links && Ordered(links) && Linked(links) && Consistent(links)
      ensures result == BlockersOf(links, Satisfied(links), this)
      ensures result == {} <==> PrerequisitesOf(links, this) <= Satisfied(links)
    {
      ghost var satisfied, b := Satisfied(links), |links.Keys| + 1;
      var expectations := [this];
      result := {};
      ghost var passed := {};
      while expectations != []
        invariant Sifting(links, satisfied, this, result, passed, expectations, {}, {})
        decreases Load(b, Serial, expectations)
      {
        result, expectations, passed := SiftLast(result, expectations, links, satisfied, passed, b);
      }
      SiftOut(links, satisfied, this, result, passed);
    }

    /** The outer loop: takes an expectation off the worklist. */
    method SiftLast(before: set<ExpectationBase>, work: seq<ExpectationBase>, ghost links: Links,
                    ghost satisfied: set<ExpectationBase>, ghost passed0: set<ExpectationBase>, ghost b: nat)
      returns (result: set<ExpectationBase>, expectations: seq<ExpectationBase>, ghost passed: set<ExpectationBase>)
      requires Ordered(links) && Linked(links) && Consistent(links) && satisfied == Satisfied(links)
      requires work != [] && b == |links.Keys| + 1
      requires Sifting(links, satisfied, this, before, passed0, work, {}, {})
      ensures Sifting(links, satisfied, this, result, passed, expectations, {}, {})
      ensures Load(b, Serial, expectations) < Load(b, Serial, work)
    {
      var exp := work[|work| - 1];
      SiftFrom(links, satisfied, this, before, passed0, work);
      FitsBelow(b, Serial, links, work);
      result, expectations, passed := Sift(exp, before, work[..|work| - 1], links, satisfied, passed0, b);
      SiftedThrough(links, satisfied, this, result, passed, expectations, exp);
    }

    /** The inner loop: looks at all immediate prerequisites of `exp`. */
    method Sift(exp: ExpectationBase, before: set<ExpectationBase>, waiting: seq<ExpectationBase>,
                ghost links: Links, ghost satisfied: set<ExpectationBase>, ghost passed0: set<ExpectationBase>, ghost b: nat)
      returns (result: set<ExpectationBase>, expectations: seq<ExpectationBase>, ghost passed: set<ExpectationBase>)
      requires Ordered(links) && Linked(links) && Consistent(links) && satisfied == Satisfied(links)
      requires exp in links && b == |links.Keys| + 1
      requires Sifting(links, satisfied, this, before, passed0, waiting, {exp}, links[exp])
      ensures Sifting(links, satisfied, this, result, passed, expectations, {exp}, {})
      ensures Load(b, Serial, expectations) <= Owed(b, Serial, waiting, links[exp], exp)
    {
      result, expectations, passed := before, waiting, passed0;
      var todo := exp.immediatePrerequisites;
      while todo != {}
        invariant todo <= links[exp]
        invariant Sifting(links, satisfied, this, result, passed, expectations, {exp}, todo)
        invariant Owed(b, Serial, expectations, todo, exp) <= Owed(b, Serial, waiting, links[exp], exp)
        decreases todo
      {
        var next :| next in todo;
        Spend(b, Serial, todo, expectations, exp, next);
        if next.IsSatisfied() {
          if next.callCount == 0 {
            WalkOn(links, satisfied, this, result, passed, expectations, exp, todo, next);
            expectations := expectations + [next];
          } else {
            Prune(links, satisfied, this, result, passed, expectations, exp, todo, next);
          }
          passed := passed + {next};
        } else {
          Report(links, satisfied, this, result, passed, expectations, exp, todo, next);
          result := result + {next};
        }
        todo := todo - {next};
      }
    }

    /** Takes a call that the expectation should handle: an excessive one is only counted. */
    method HandleCall(ghost links: Links)
      requires this in links && Ordered(links) && Linked(links) && Consistent(links)
      requires !retired && PrerequisitesOf(links, this) <= Satisfied(links)
      modifies this`callCount, links.Keys`retired
      ensures Consistent(links)
      ensures callCount == old(callCount) + 1
      ensures Retired(links) ==
              if old(callCount) >= maxCalls then old(Retired(links))
              else old(Retired(links)) + PrerequisitesOf(links, this)
                   + (if retiresOnSaturation && callCount == maxCalls then {this} else {})
    {
      PrerequisitesEarlier(links, this);
      if IsSaturated() {
        callCount := callCount + 1;
        return;
      }
      ghost var satisfied, before := Satisfied(links), Retired(links);
      callCount := callCount + 1;
      assert Retired(links) == before;
      RetireAllPreRequisites(links);
      if retiresOnSaturation && IsSaturated() {
        Retire(links);
      }
      assert Satisfied(links) - {this} == satisfied - {this};
      assert links[this] <= PrerequisitesOf(links, this);
    }
  }

  lemma PrerequisitesEarlier(links: Links, e: ExpectationBase)
    requires Ordered(links) && e in links
    ensures e !in PrerequisitesOf(links, e)
    ensures links[e] <= PrerequisitesOf(links, e)
  {
    if IsPrerequisite(links, e, e) {
      PrerequisitesKnown(links, e, e);
    }
    forall p | p in links[e] ensures p in PrerequisitesOf(links, e) {
      IsPrerequisiteIff(links, e, p);
    }
  }

  /** Nothing that was called as intended is ever followed by a call to one of its prerequisites, and
      those are all in `settled`. */
  ghost predicate InOrder(links: Links, calls: seq<ExpectationBase>, handled: seq<bool>, settled: set<ExpectationBase>) {
    && |handled| == |calls|
    && (forall i | 0 <= i < |calls| && handled[i] && calls[i].maxCalls > 0 :: PrerequisitesOf(links, calls[i]) <= settled)
    && (forall i, j | 0 <= i < j < |calls| && handled[i] && handled[j] && calls[i].maxCalls > 0 ::
          calls[j] !in PrerequisitesOf(links, calls[i]))
  }

  lemma InOrderStep(links: Links, calls: seq<ExpectationBase>, handled: seq<bool>, before: set<ExpectationBase>,
                    after: set<ExpectationBase>, c: ExpectationBase, takes: bool)
    requires InOrder(links, calls, handled, before) && before <= after
    requires takes ==> c !in before && (c.maxCalls > 0 ==> PrerequisitesOf(links, c) <= after)
    ensures InOrder(links, calls + [c], handled + [takes], after)
  {}

  /** How often each expectation has been called, and which are retired. */
  datatype Progress = Progress(counts: map<ExpectationBase, nat>, retired: set<ExpectationBase>)

  ghost function Now(links: Links): Progress
    reads links.Keys`callCount, links.Keys`retired
  {
    Progress(map e | e in links :: e.callCount, Retired(links))
  }

  /** A call is taken by an expectation that is not retired and whose prerequisites have all been called often
      enough, and not too often. */
  ghost predicate Takes(links: Links, p: Progress, c: ExpectationBase) {
    && c !in p.retired
    && forall q <- PrerequisitesOf(links, c) :: q in p.counts && q.minCalls <= p.counts[q] <= q.maxCalls
  }

  /** One that is not taken changes nothing; one too many is only counted; any other retires the prerequisites. */
  ghost function After(links: Links, p: Progress, c: ExpectationBase): Progress
    requires c in p.counts
  {
    if !Takes(links, p, c) then p
    else
      var n := p.counts[c];
      Progress(p.counts[c := n + 1],
               if n >= c.maxCalls then p.retired
               else p.retired + PrerequisitesOf(links, c) + if c.retiresOnSaturation && n + 1 == c.maxCalls then {c} else {})
  }

  ghost function AfterAll(links: Links, p: Progress, calls: seq<ExpectationBase>): (q: Progress)
    requires forall c <- calls :: c in p.counts
    ensures q.counts.Keys == p.counts.Keys
  {
    if calls == [] then p
    else
      assert calls[|calls| - 1] in calls;
      After(links, AfterAll(links, p, calls[..|calls| - 1]), calls[|calls| - 1])
  }

  /** Offers a call to an expectation, which takes it if it should. */
  method Offer(ghost links: Links, c: ExpectationBase) returns (takes: bool)
    requires Ordered(links) && Linked(links) && Consistent(links) && c in links
    modifies links.Keys`callCount, links.Keys`retired
    ensures takes <==> old(!c.retired && PrerequisitesOf(links, c) <= Satisfied(links))
    ensures takes <==> Takes(links, old(Now(links)), c)
    ensures Now(links) == After(links, old(Now(links)), c)
    ensures Consistent(links) && old(Retired(links)) <= Retired(links)
    ensures takes && c.maxCalls > 0 ==> PrerequisitesOf(links, c) <= Retired(links)
  {
    TakesIff(links, c);
    takes := !c.retired;
    if takes {
      OrderedHasNoCycle(links, Satisfied(links), c);
      takes := c.AllPrerequisitesAreSatisfied(links);
    }
    if takes {
      Handle(links, c);
    }
  }

  method Handle(ghost links: Links, c: ExpectationBase)
    requires Ordered(links) && Linked(links) && Consistent(links) && c in links
    requires !c.retired && PrerequisitesOf(links, c) <= Satisfied(links)
    modifies links.Keys`callCount, links.Keys`retired
    ensures Now(links) == After(links, old(Now(links)), c)
    ensures Consistent(links) && old(Retired(links)) <= Retired(links)
    ensures c.maxCalls > 0 ==> PrerequisitesOf(links, c) <= Retired(links)
  {
    TakesIff(links, c);
    ghost var before := Now(links);
    c.HandleCall(links);
    if c.maxCalls > 0 {
      AllInClosed(links, Retired(links), c);
    }
    CountsOfNow(links, before.counts, c);
  }

  lemma CountsOfNow(links: Links, before: map<ExpectationBase, nat>, c: ExpectationBase)
    requires c in links && before.Keys == links.Keys && forall e | e in links && e != c :: e.callCount == before[e]
    ensures Now(links).counts == before[c := c.callCount]
  {}

  lemma TakesIff(links: Links, c: ExpectationBase)
    requires c in links
    ensures Takes(links, Now(links), c) <==> !c.retired && PrerequisitesOf(links, c) <= Satisfied(links)
  {}

  /** Offers a run of calls to the expectations; at each position, the call is taken exactly if it should be. */
  method Replay(ghost links: Links, calls: seq<ExpectationBase>) returns (handled: seq<bool>)
    requires Ordered(links) && Linked(links) && Consistent(links)
    requires forall c <- calls :: c in links
    modifies links.Keys`callCount, links.Keys`retired
    ensures |handled| == |calls|
    ensures forall i | 0 <= i < |calls| ::
              handled[i] <==> Takes(links, AfterAll(links, old(Now(links)), calls[..i]), calls[i])
    ensures Now(links) == AfterAll(links, old(Now(links)), calls)
    ensures Consistent(links)
    ensures InOrder(links, calls, handled, Satisfied(links))
  {
    handled := [];
    ghost var p := Now(links);
    for n := 0 to |calls|
      invariant Linked(links) && Consistent(links) && p.counts.Keys == links.Keys
      invariant Replayed(links, p, calls[..n], handled, Now(links))
    {
      assert calls[n] in calls && calls[..n + 1] == calls[..n] + [calls[n]];
      handled := OfferNext(links, p, calls[..n], calls[n], handled);
    }
    assert calls[..|calls|] == calls;
    ReplayedAt(links, p, calls, handled, Now(links));
    InOrderGrows(links, calls, handled, Retired(links), Satisfied(links));
  }

  /** One more call of a run. */
  method OfferNext(ghost links: Links, ghost p: Progress, ghost before: seq<ExpectationBase>, c: ExpectationBase,
                   handled: seq<bool>)
    returns (more: seq<bool>)
    requires Ordered(links) && Linked(links) && Consistent(links) && c in links && c in p.counts
    requires Replayed(links, p, before, handled, Now(links))
    modifies links.Keys`callCount, links.Keys`retired
    ensures Consistent(links) && Replayed(links, p, before + [c], more, Now(links))
  {
    ghost var now := Now(links);
    var takes := Offer(links, c);
    ReplayedNext(links, p, before, handled, now, c, takes);
    more := handled + [takes];
  }

  lemma InOrderGrows(links: Links, calls: seq<ExpectationBase>, handled: seq<bool>, before: set<ExpectationBase>,
                     after: set<ExpectationBase>)
    requires InOrder(links, calls, handled, before) && before <= after
    ensures InOrder(links, calls, handled, after)
  {}

  /** What a run has come to. */
  ghost predicate Replayed(links: Links, p: Progress, calls: seq<ExpectationBase>, handled: seq<bool>, now: Progress) {
    && (forall c <- calls :: c in p.counts)
    && Taken(links, p, calls, handled)
    && now == AfterAll(links, p, calls)
    && InOrder(links, calls, handled, now.retired)
  }

  lemma ReplayedNext(links: Links, p: Progress, calls: seq<ExpectationBase>, handled: seq<bool>, now: Progress,
                     c: ExpectationBase, takes: bool)
    requires c in p.counts && Replayed(links, p, calls, handled, now) && (takes <==> Takes(links, now, c))
    requires var after := After(links, now, c);
             now.retired <= after.retired && (takes && c.maxCalls > 0 ==> PrerequisitesOf(links, c) <= after.retired)
    ensures Replayed(links, p, calls + [c], handled + [takes], After(links, now, c))
  {
    InOrderStep(links, calls, handled, now.retired, After(links, now, c).retired, c, takes);
    TakenNext(links, p, calls, handled, c, takes);
  }

  lemma ReplayedAt(links: Links, p: Progress, calls: seq<ExpectationBase>, handled: seq<bool>, now: Progress)
    requires Replayed(links, p, calls, handled, now)
    ensures |handled| == |calls| && now == AfterAll(links, p, calls) && InOrder(links, calls, handled, now.retired)
    ensures forall i | 0 <= i < |calls| :: handled[i] <==> Takes(links, AfterAll(links, p, calls[..i]), calls[i])
  {
    forall i | 0 <= i < |calls| ensures handled[i] <==> Takes(links, AfterAll(links, p, calls[..i]), calls[i]) {
      TakenAt(links, p, calls, handled, i);
    }
  }

  /** Just the calls that should be have been taken. */
  ghost predicate Taken(links: Links, p: Progress, calls: seq<ExpectationBase>, handled: seq<bool>)
    requires forall c <- calls :: c in p.counts
    decreases |calls|
  {
    && |handled| == |calls|
    && (calls != [] ==>
          var n := |calls| - 1;
          && Taken(links, p, calls[..n], handled[..n])
          && (handled[n] <==> Takes(links, AfterAll(links, p, calls[..n]), calls[n])))
  }

  lemma TakenNext(links: Links, p: Progress, calls: seq<ExpectationBase>, handled: seq<bool>, c: ExpectationBase, takes: bool)
    requires c in p.counts && forall e <- calls :: e in p.counts
    requires Taken(links, p, calls, handled) && (takes <==> Takes(links, AfterAll(links, p, calls), c))
    ensures forall e <- calls + [c] :: e in p.counts
    ensures Taken(links, p, calls + [c], handled + [takes])
    ensures AfterAll(links, p, calls + [c]) == After(links, AfterAll(links, p, calls), c)
  {
    assert (calls + [c])[..|calls|] == calls && (handled + [takes])[..|handled|] == handled;
  }

  lemma {:induction false} TakenAt(links: Links, p: Progress, calls: seq<ExpectationBase>, handled: seq<bool>, i: nat)
    requires i < |calls| && (forall e <- calls :: e in p.counts) && Taken(links, p, calls, handled)
    ensures handled[i] <==> Takes(links, AfterAll(links, p, calls[..i]), calls[i])
  {
    var n := |calls| - 1;
    if i < n {
      TakenAt(links, p, calls[..n], handled[..n], i);
      assert calls[..n][..i] == calls[..i];
    }
  }

  /** What holds between any two calls: prerequisites of the retired are retired, the retired are
      satisfied, and so are retired the prerequisites of everything that was called while it could be. */
  ghost predicate Consistent(links: Links)
    reads links.Keys`retired, links.Keys`callCount
  {
    && ClosedSet(links, Retired(links))
    && Retired(links) <= Satisfied(links)
    && (forall e <- links.Keys :: e.minCalls <= e.maxCalls)
    && (forall e <- links.Keys :: e.callCount > 0 && e.maxCalls > 0 ==> links[e] <= Retired(links))
  }

  lemma CalledIsUnblocked(links: Links, e: ExpectationBase)
    requires Ordered(links) && Consistent(links) && e in links && e.IsSatisfied() && e.callCount > 0
    ensures PrerequisitesOf(links, e) <= Retired(links)
    ensures BlockersOf(links, Satisfied(links), e) == {}
  {
    AllInClosed(links, Retired(links), e);
    NoBlockers(links, Satisfied(links), e);
  }

  /** `links` is what the expectations record. */
  ghost predicate Linked(links: Links)
    reads links.Keys`immediatePrerequisites
  {
    forall e <- links.Keys :: e.immediatePrerequisites == links[e]
  }

  ghost function Satisfied(links: Links): (s: set<ExpectationBase>)
    reads links.Keys`callCount
  {
    set e | e in links && e.IsSatisfied()
  }

  ghost function Retired(links: Links): (s: set<ExpectationBase>)
    reads links.Keys`retired
  {
    set e | e in links && e.retired
  }

  ghost function PrerequisitesOf(links: Links, e: ExpectationBase): set<ExpectationBase>
  {
    set p | p in links && IsPrerequisite(links, e, p)
  }

  lemma AllInClosed(links: Links, s: set<ExpectationBase>, e: ExpectationBase)
    requires e in links && ClosedSet(links, s) && links[e] <= s
    ensures PrerequisitesOf(links, e) <= s
  {
    forall p | p in PrerequisitesOf(links, e) ensures p in s {
      var n: nat :| ReachedIn(links, e, p, n);
      ClosedSetHolds(links, s, e, p, n);
    }
  }

  /** The links to prerequisites in `s` only. */
  ghost function Among(links: Links, s: set<ExpectationBase>): Links {
    map e | e in links :: links[e] * s
  }

  /** Nothing that is reached from `start` is reached from itself. */
  ghost predicate NoCycle(links: Links, start: ExpectationBase) {
    forall p <- PrerequisitesOf(links, start) :: p !in PrerequisitesOf(links, p)
  }

  lemma OrderedHasNoCycle(links: Links, s: set<ExpectationBase>, e: ExpectationBase)
    requires Ordered(links)
    ensures Known(links) && NoCycle(Among(links, s), e)
  {
    forall p | p in PrerequisitesOf(Among(links, s), p) ensures false {
      PrerequisitesKnown(Among(links, s), p, p);
    }
  }

  /** One turn of the walk's outer loop that finds all satisfied: the last one on the worklist gives way to its
      prerequisites, in any order. */
  ghost predicate Turn(links: Links, work: seq<ExpectationBase>, pushed: seq<ExpectationBase>) {
    work != [] && work[|work| - 1] in links && (set p <- pushed) == links[work[|work| - 1]]
  }

  ghost predicate Turns(links: Links, work: seq<ExpectationBase>, orders: seq<seq<ExpectationBase>>,
                        now: seq<ExpectationBase>)
    decreases |orders|
  {
    if orders == [] then now == work
    else Turn(links, work, orders[0]) && Turns(links, work[..|work| - 1] + orders[0], orders[1..], now)
  }

  /** With a cycle in reach, and all satisfied, the walk never comes to the end of its worklist. */
  lemma CycleNeverEnds(links: Links, start: ExpectationBase, orders: seq<seq<ExpectationBase>>, now: seq<ExpectationBase>)
    requires !NoCycle(links, start) && Turns(links, [start], orders, now)
    ensures now != []
  {
    var z :| z in PrerequisitesOf(links, start) && z in PrerequisitesOf(links, z);
    TurnsKeepCycle(links, [start], orders, now, start, z);
  }

  lemma {:induction false} TurnsKeepCycle(links: Links, work: seq<ExpectationBase>, orders: seq<seq<ExpectationBase>>,
                                          now: seq<ExpectationBase>, e: ExpectationBase, z: ExpectationBase)
    requires z in PrerequisitesOf(links, z) && e in work && z in PrerequisitesOf(links, e) && Turns(links, work, orders, now)
    ensures now != []
    decreases |orders|
  {
    if orders != [] {
      var next := TurnKeepsCycle(links, work, orders[0], e, z);
      TurnsKeepCycle(links, work[..|work| - 1] + orders[0], orders[1..], now, next, z);
    }
  }

  lemma TurnKeepsCycle(links: Links, work: seq<ExpectationBase>, pushed: seq<ExpectationBase>, e: ExpectationBase,
                       z: ExpectationBase) returns (next: ExpectationBase)
    requires z in PrerequisitesOf(links, z) && e in work && z in PrerequisitesOf(links, e) && Turn(links, work, pushed)
    ensures next in work[..|work| - 1] + pushed && z in PrerequisitesOf(links, next)
  {
    next := e;
    if e !in work[..|work| - 1] {
      assert e == work[|work| - 1];
      IsPrerequisiteIff(links, e, z);
      if z in links[e] {
        next := z;
      } else {
        next :| next in links[e] && IsPrerequisite(links, next, z);
      }
      assert next in pushed;
    }
  }

  ghost predicate Reachable(links: Links, start: ExpectationBase, work: seq<ExpectationBase>) {
    forall e <- work :: e == start || e in PrerequisitesOf(links, start)
  }

  /** How many prerequisites an expectation has. */
  ghost function RankOf(links: Links): ExpectationBase -> nat {
    (e: ExpectationBase) => |PrerequisitesOf(links, e)|
  }

  /** Each step away from `start` leaves one prerequisite behind. */
  lemma Descend(links: Links, start: ExpectationBase, e: ExpectationBase, p: ExpectationBase)
    requires Known(links) && NoCycle(links, start) && (e == start || e in PrerequisitesOf(links, start))
    requires e in links && p in links[e]
    ensures p in PrerequisitesOf(links, start) && RankOf(links)(p) < RankOf(links)(e)
  {
    IsPrerequisiteIff(links, e, p);
    if e != start {
      PrerequisiteOfPrerequisite(links, start, e, p);
    }
    forall q | q in PrerequisitesOf(links, p) ensures q in PrerequisitesOf(links, e) {
      IsPrerequisiteIff(links, e, q);
    }
    SubsetSize(PrerequisitesOf(links, p), PrerequisitesOf(links, e));
  }

  ghost function Serial(e: ExpectationBase): nat {
    e.serial
  }

  /** Bounds the work that a worklist can still give rise to. */
  ghost function Load(b: nat, rank: ExpectationBase -> nat, work: seq<ExpectationBase>): nat {
    if work == [] then 0 else Load(b, rank, work[..|work| - 1]) + Pow(b, rank(work[|work| - 1]))
  }

  /** The most that one prerequisite of an expectation of rank `r` adds to the load. */
  ghost function Share(b: nat, r: nat): nat {
    if r == 0 then 0 else Pow(b, r - 1)
  }

  ghost function Shares(b: nat, r: nat, n: nat): nat {
    if n == 0 then 0 else Shares(b, r, n - 1) + Share(b, r)
  }

  lemma {:induction false} SharesTotal(b: nat, r: nat, n: nat)
    ensures Shares(b, r, n) == n * Share(b, r)
  {
    if n > 0 {
      SharesTotal(b, r, n - 1);
      assert n * Share(b, r) == (n - 1) * Share(b, r) + Share(b, r);
    }
  }

  lemma FewerTimesLess(m: nat, n: nat, x: nat)
    requires m < n && x > 0
    ensures m * x < n * x
  {}

  ghost function Owed(b: nat, rank: ExpectationBase -> nat, work: seq<ExpectationBase>, todo: set<ExpectationBase>,
                      exp: ExpectationBase): (n: nat)
    ensures n >= Load(b, rank, work)
  {
    Load(b, rank, work) + Shares(b, rank(exp), |todo|)
  }

  /** Taking the last expectation off the worklist pays for all its prerequisites. */
  lemma FitsBelow(b: nat, rank: ExpectationBase -> nat, links: Links, work: seq<ExpectationBase>)
    requires work != []
    requires var exp := work[|work| - 1]; Known(links) && exp in links && b == |links.Keys| + 1
    ensures var exp := work[|work| - 1];
            Owed(b, rank, work[..|work| - 1], links[exp], exp) < Load(b, rank, work)
  {
    var exp := work[|work| - 1];
    SubsetSize(links[exp], links.Keys);
    SharesTotal(b, rank(exp), |links[exp]|);
    if rank(exp) > 0 {
      FewerTimesLess(|links[exp]|, b, Pow(b, rank(exp) - 1));
    }
  }

  lemma Spend(b: nat, rank: ExpectationBase -> nat, todo: set<ExpectationBase>, work: seq<ExpectationBase>,
              exp: ExpectationBase, next: ExpectationBase)
    requires b > 0 && next in todo && rank(next) < rank(exp)
    ensures Owed(b, rank, work + [next], todo - {next}, exp) <= Owed(b, rank, work, todo, exp)
    ensures Owed(b, rank, work, todo - {next}, exp) <= Owed(b, rank, work, todo, exp)
  {
    var n := |todo|;
    assert |todo - {next}| == n - 1;
    assert (work + [next])[..|work|] == work;
    PowGrows(b, rank(next), rank(exp) - 1);
  }

  predicate MayFollow(last: ExpectationBase?, expectation: ExpectationBase) {
    last == null || last == expectation || last.serial < expectation.serial
  }

  lemma OrderKeptIff(links: Links, last: ExpectationBase?, expectation: ExpectationBase)
    requires last != null
    requires Ordered(links) && expectation in links && last in links && last != expectation
    ensures Ordered(links[expectation := links[expectation] + {last}]) <==> MayFollow(last, expectation)
  {
    var more := links[expectation := links[expectation] + {last}];
    if Ordered(more) {
      assert last in more[expectation];
    }
  }

  /** A user's Sequence: each expectation added must follow all those added before it. */
  class Sequence {
    var lastExpectation: ExpectationBase?
    ghost var members: seq<ExpectationBase>

    ghost predicate Valid()
      reads this, members
    {
      && (if members == [] then lastExpectation == null else lastExpectation == members[|members| - 1])
      && (forall i | 0 < i < |members| :: members[i - 1] in members[i].immediatePrerequisites)
    }

    constructor ()
      ensures Valid() && members == []
    {
      lastExpectation, members := null, [];
    }

    /** Adding an expectation that was created before the last one breaks the order in which prerequisites are
        older, and with it what keeps them free of cycles. */
    method AddExpectation(expectation: ExpectationBase, ghost links: Links)
      requires Valid()
      modifies this, expectation`immediatePrerequisites
      ensures Valid()
      ensures members == if old(lastExpectation) == expectation then old(members) else old(members) + [expectation]
      ensures expectation.immediatePrerequisites == old(expectation.immediatePrerequisites)
              + if old(lastExpectation) == expectation || old(lastExpectation) == null then {} else {old(lastExpectation)}
      ensures Ordered(links) && expectation in links && links[expectation] == old(expectation.immediatePrerequisites)
              && (old(lastExpectation) == null || old(lastExpectation) in links) ==>
                (Ordered(links[expectation := expectation.immediatePrerequisites])
                 <==> MayFollow(old(lastExpectation), expectation))
    {
      if lastExpectation != null && lastExpectation != expectation && lastExpectation in links && expectation in links
         && Ordered(links) {
        OrderKeptIff(links, lastExpectation, expectation);
      } else if expectation in links {
        assert links[expectation := links[expectation]] == links;
      }
      if lastExpectation != expectation {
        Link(expectation);
      }
    }

    method Link(expectation: ExpectationBase)
      requires Valid() && lastExpectation != expectation
      modifies this, expectation`immediatePrerequisites
      ensures Valid() && members == old(members) + [expectation]
      ensures expectation.immediatePrerequisites == old(expectation.immediatePrerequisites)
              + if old(lastExpectation) == null then {} else {old(lastExpectation)}
    {
      if lastExpectation != null {
        expectation.immediatePrerequisites := expectation.immediatePrerequisites + {lastExpectation};
      }
      lastExpectation := expectation;
      members := members + [expectation];
    }

    /** Every member has all earlier ones as prerequisites. */
    lemma {:induction false} ChainsAll(links: Links, i: nat, j: nat)
      requires Valid() && Linked(links)
      requires i < j < |members| && forall m <- members :: m in links
      ensures members[i] in PrerequisitesOf(links, members[j])
      decreases j
    {
      assert members[j - 1] in links[members[j]] && members[i] in members;
      IsPrerequisiteIff(links, members[j], members[i]);
      if i < j - 1 {
        ChainsAll(links, i, j - 1);
      }
    }
  }
}
