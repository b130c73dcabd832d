/**
 The certificate pool under any number of threads calling Add and Get: the atomic steps of both, the
 regions a thread holds the lock in, and the dirty flag that is swapped outside of it.
 */
module CertPoolSteps {
  import opened Wrappers
  import opened CertPools

  datatype Pc =
    | Outside
    | Filtered(todo: seq<Certificate>)   // Add: has read the index, about to lock
    | Appending(todo: seq<Certificate>)  // Add: holds the lock
    | Marked                             // Add: holds the lock, dirty is set
    | Won                                // Get: swapped dirty from 1 to 0, about to lock and rebuild
    | Reading                            // Get: about to read the pool

  datatype Pool = Pool(certs: seq<Certificate>, index: map<string, seq<nat>>, pool: seq<Certificate>, dirty: bool,
                       pcs: map<nat, Pc>,
                       // what happened so far: how many certificates the pool was built from, how many an Add
                       // had appended when it set dirty last, and the pools returned
                       covered: nat, marked: nat, results: seq<seq<Certificate>>)
  {
    function PcOf(t: nat): Pc {
      if t in pcs then pcs[t] else Outside
    }

    function Goto(t: nat, pc: Pc): Pool {
      this.(pcs := pcs[t := pc])
    }

    ghost predicate LockFree() {
      forall t: nat :: !HoldsLock(PcOf(t))
    }

    ghost predicate Rebuilding() {
      exists t: nat :: PcOf(t).Won?
    }
  }

  predicate HoldsLock(pc: Pc) {
    pc.Appending? || pc.Marked?
  }

  datatype Config = Config(system: seq<Certificate>, subject: SubjectReader)

  function NewPool(config: Config): Pool {
    Pool([], map[], config.system, false, map[], 0, 0, [])
  }

  // filterCerts as it runs, through the index.
  function UnknownByIndex(p: Pool, config: Config, args: seq<Option<Certificate>>): seq<Certificate> {
    if args == [] then []
    else
      var last := args[|args| - 1];
      UnknownByIndex(p, config, args[..|args| - 1]) +
      if last.Some? && !StoredByIndex(p.certs, CertPools.Lookup(p.index, config.subject(last.value.raw)), last.value)
      then [last.value] else []
  }

  datatype Action = AddFilter(args: seq<Option<Certificate>>) | AddLock | AddAppend | AddMark | AddUnlock
                  | GetSwap | GetRebuild | GetRead

  datatype Step = Step(thread: nat, action: Action)

  // One atomic step; a thread that cannot take it does nothing.
  ghost function Next(p: Pool, config: Config, step: Step): Pool {
    var t := step.thread;
    var pc := p.PcOf(t);
    match step.action
    case AddFilter(args) =>
      if pc != Outside || !p.LockFree() then p
      else
        var todo := Distinct(UnknownByIndex(p, config, args));
        if todo == [] then p else p.Goto(t, Filtered(todo))
    case AddLock =>
      if pc.Filtered? && p.LockFree() then p.Goto(t, Appending(pc.todo)) else p
    case AddAppend =>
      if !pc.Appending? || pc.todo == [] then p
      else p.Goto(t, Appending(pc.todo[1..])).(
             certs := p.certs + [pc.todo[0]],
             index := IndexAdd(p.index, config.subject(pc.todo[0].raw), |p.certs|))
    case AddMark =>
      if pc == Appending([]) then p.Goto(t, Marked).(dirty := true, marked := |p.certs|) else p
    case AddUnlock =>
      if pc == Marked then p.Goto(t, Outside) else p
    case GetSwap =>
      if pc != Outside then p
      else if p.dirty then p.Goto(t, Won).(dirty := false)
      else p.Goto(t, Reading)
    case GetRebuild =>
      if pc.Won? && p.LockFree()
      then p.Goto(t, Reading).(pool := Built(config.system, p.certs), covered := |p.certs|) else p
    case GetRead =>
      if pc.Reading? && p.LockFree()
      then p.Goto(t, Outside).(results := p.results + [p.pool]) else p
  }

  ghost function Run(config: Config, steps: seq<Step>): Pool {
    if steps == [] then NewPool(config) else Next(Run(config, steps[..|steps| - 1]), config, steps[|steps| - 1])
  }

  // ---- The invariant ----

  ghost predicate OneHolder(p: Pool) {
    forall t: nat, u: nat :: HoldsLock(p.PcOf(t)) && HoldsLock(p.PcOf(u)) ==> t == u
  }

  // An Add's certificates that the pool lacks are announced: by the Add itself until it sets the flag, by the
  // flag, or by the Get that has taken the flag down and not yet rebuilt.
  ghost predicate Announced(p: Pool) {
    && p.marked <= |p.certs|
    && (p.covered < p.marked ==> p.dirty || p.Rebuilding())
    && (p.marked < |p.certs| ==> exists t: nat :: p.PcOf(t).Appending?)
  }

  // A result is the pool built from the first n certificates.
  ghost predicate BuiltFrom(p: Pool, config: Config, r: seq<Certificate>, n: nat) {
    n <= p.covered <= |p.certs| && r == Built(config.system, p.certs[..n])
  }

  ghost predicate FromPrefix(p: Pool, config: Config, r: seq<Certificate>) {
    exists n: nat :: BuiltFrom(p, config, r, n)
  }

  ghost predicate Results(p: Pool, config: Config) {
    && (forall i :: 0 <= i < |p.results| ==> FromPrefix(p, config, p.results[i]))
    && (forall i, j :: 0 <= i < j < |p.results| ==> p.results[i] <= p.results[j])
    && (forall i :: 0 <= i < |p.results| ==> p.results[i] <= p.pool)
  }

  ghost predicate Inv(p: Pool, config: Config) {
    && OneHolder(p)
    && IndexExact(p.certs, config.subject, p.index)
    && p.covered <= |p.certs|
    && p.pool == Built(config.system, p.certs[..p.covered])
    && Announced(p) && Results(p, config)
  }

  lemma OthersStay(p: Pool, p': Pool, t: nat, pc: Pc)
    requires p'.pcs == p.pcs[t := pc]
    ensures p'.PcOf(t) == pc
    ensures forall u: nat :: u != t ==> p'.PcOf(u) == p.PcOf(u)
  {
  }

  // A step that touches neither the certificates nor the pool keeps what was built and returned.
  lemma ResultsStay(p: Pool, p': Pool, config: Config)
    requires Results(p, config) && p'.results == p.results && p'.pool == p.pool && p'.covered == p.covered
    requires p.covered <= |p.certs| && p.certs <= p'.certs
    ensures Results(p', config)
    ensures p.pool == Built(config.system, p.certs[..p.covered]) ==>
              p'.pool == Built(config.system, p'.certs[..p'.covered])
  {
    assert p'.certs[..p.covered] == p.certs[..p.covered];
    forall i | 0 <= i < |p'.results| ensures FromPrefix(p', config, p'.results[i]) {
      assert FromPrefix(p, config, p.results[i]);
      var n: nat :| BuiltFrom(p, config, p.results[i], n);
      assert p'.certs[..n] == p.certs[..n];
      assert BuiltFrom(p', config, p'.results[i], n);
    }
  }

  lemma AddKeeps(p: Pool, config: Config, step: Step)
    requires Inv(p, config)
    requires step.action.AddFilter? || step.action.AddLock? || step.action.AddMark? || step.action.AddUnlock?
    ensures Inv(Next(p, config, step), config)
  {
    var p' := Next(p, config, step);
    if p' != p {
      OthersStay(p, p', step.thread, p'.PcOf(step.thread));
      ResultsStay(p, p', config);
      RebuildingStays(p, p', step.thread);
      AppendingStays(p, p', step.thread);
    }
  }

  lemma RebuildingStays(p: Pool, p': Pool, t: nat)
    requires forall u: nat :: u != t ==> p'.PcOf(u) == p.PcOf(u)
    requires p.PcOf(t).Won? ==> p'.PcOf(t).Won?
    ensures p.Rebuilding() ==> p'.Rebuilding()
  {
    if p.Rebuilding() {
      var u: nat :| p.PcOf(u).Won?;
      assert p'.PcOf(u).Won?;
    }
  }

  lemma AppendingStays(p: Pool, p': Pool, t: nat)
    requires forall u: nat :: u != t ==> p'.PcOf(u) == p.PcOf(u)
    requires p.PcOf(t).Appending? ==> p'.PcOf(t).Appending? || p'.marked == |p'.certs|
    ensures (exists u: nat :: p.PcOf(u).Appending?) ==>
              p'.marked == |p'.certs| || exists u: nat :: p'.PcOf(u).Appending?
  {
    if exists u: nat :: p.PcOf(u).Appending? {
      var u: nat :| p.PcOf(u).Appending?;
      assert p'.marked == |p'.certs| || p'.PcOf(u).Appending?;
    }
  }

  lemma AppendKeeps(p: Pool, config: Config, t: nat)
    requires Inv(p, config)
    ensures Inv(Next(p, config, Step(t, AddAppend)), config)
  {
    var p' := Next(p, config, Step(t, AddAppend));
    if p' != p {
      OthersStay(p, p', t, p'.PcOf(t));
      ResultsStay(p, p', config);
      IndexAddExact(p.certs, config.subject, p.index, p.PcOf(t).todo[0]);
      assert p'.PcOf(t).Appending?;
      RebuildingStays(p, p', t);
    }
  }

  lemma SwapKeeps(p: Pool, config: Config, t: nat)
    requires Inv(p, config)
    ensures Inv(Next(p, config, Step(t, GetSwap)), config)
  {
    var p' := Next(p, config, Step(t, GetSwap));
    if p' != p {
      OthersStay(p, p', t, p'.PcOf(t));
      ResultsStay(p, p', config);
      if p.dirty {
        assert p'.PcOf(t).Won?;
      } else {
        RebuildingStays(p, p', t);
        AppendingStays(p, p', t);
      }
    }
  }

  lemma RebuildKeeps(p: Pool, config: Config, t: nat)
    requires Inv(p, config)
    ensures Inv(Next(p, config, Step(t, GetRebuild)), config)
  {
    var p' := Next(p, config, Step(t, GetRebuild));
    if p' != p {
      OthersStay(p, p', t, p'.PcOf(t));
      assert p.certs[..|p.certs|] == p.certs;
      BuiltGrows(config.system, p.certs, p.covered, |p.certs|);
      AppendingStays(p, p', t);
      forall i | 0 <= i < |p'.results| ensures FromPrefix(p', config, p'.results[i]) {
        assert FromPrefix(p, config, p.results[i]);
        var n: nat :| BuiltFrom(p, config, p.results[i], n);
        assert BuiltFrom(p', config, p'.results[i], n);
      }
    }
  }

  lemma ReadKeeps(p: Pool, config: Config, t: nat)
    requires Inv(p, config)
    ensures Inv(Next(p, config, Step(t, GetRead)), config)
  {
    var p' := Next(p, config, Step(t, GetRead));
    if p' != p {
      OthersStay(p, p', t, Outside);
      RebuildingStays(p, p', t);
      AppendingStays(p, p', t);
      var m := |p.results|;
      forall i | 0 <= i < |p'.results| ensures FromPrefix(p', config, p'.results[i]) {
        if i < m {
          assert FromPrefix(p, config, p.results[i]);
          var n: nat :| BuiltFrom(p, config, p.results[i], n);
          assert BuiltFrom(p', config, p'.results[i], n);
        } else {
          assert BuiltFrom(p', config, p'.results[i], p.covered);
        }
      }
    }
  }

  lemma {:induction false} RunKeepsInv(config: Config, steps: seq<Step>)
    ensures Inv(Run(config, steps), config)
  {
    if steps != [] {
      var p, step := Run(config, steps[..|steps| - 1]), steps[|steps| - 1];
      RunKeepsInv(config, steps[..|steps| - 1]);
      match step.action
      case AddAppend => AppendKeeps(p, config, step.thread);
      case GetSwap => SwapKeeps(p, config, step.thread);
      case GetRebuild => RebuildKeeps(p, config, step.thread);
      case GetRead => ReadKeeps(p, config, step.thread);
      case _ => AddKeeps(p, config, step);
    }
  }

  // ---- What every interleaving keeps ----

  // If a stored certificate is missing from the current pool, then dirty is 1, or an Add is inside its
  // locked region with the flag still to set, or a Get has taken the flag down and not yet swapped pools.
  lemma MissingIsAnnounced(config: Config, steps: seq<Step>, c: Certificate)
    requires Stored(Run(config, steps).certs, c) && !Stored(Run(config, steps).pool, c)
    ensures var p := Run(config, steps);
            p.dirty || (exists t: nat :: p.PcOf(t).Appending?) || (exists t: nat :: p.PcOf(t).Won?)
  {
    RunKeepsInv(config, steps);
    MissingNow(Run(config, steps), config, c);
  }

  lemma MissingNow(p: Pool, config: Config, c: Certificate)
    requires Inv(p, config) && Stored(p.certs, c) && !Stored(p.pool, c)
    ensures p.dirty || (exists t: nat :: p.PcOf(t).Appending?) || (exists t: nat :: p.PcOf(t).Won?)
  {
    BuiltHoldsAll(config.system, p.certs[..p.covered]);
    assert p.certs[..|p.certs|] == p.certs;
  }

  lemma NothingAnnounced(p: Pool)
    requires Announced(p) && p.covered <= |p.certs| && !p.dirty && forall t: nat :: p.PcOf(t) == Outside
    ensures p.covered == |p.certs|
  {
  }

  // With no call in progress and the flag down, the pool holds the system's and every added certificate.
  lemma QuiescentPoolIsComplete(config: Config, steps: seq<Step>)
    requires !Run(config, steps).dirty && forall t: nat :: Run(config, steps).PcOf(t) == Outside
    ensures var p := Run(config, steps);
            && p.pool == Built(config.system, p.certs)
            && forall c :: Stored(p.pool, c) <==> Stored(config.system, c) || Stored(p.certs, c)
  {
    RunKeepsInv(config, steps);
    var p := Run(config, steps);
    NothingAnnounced(p);
    assert p.certs[..|p.certs|] == p.certs;
    BuiltHoldsAll(config.system, p.certs);
  }

  // Pools handed out one after the other only grow.
  lemma ReturnedPoolsGrow(config: Config, steps: seq<Step>, i: nat, j: nat)
    requires i < j < |Run(config, steps).results|
    ensures Run(config, steps).results[i] <= Run(config, steps).results[j]
  {
    RunKeepsInv(config, steps);
  }

  // The index agrees with a full scan at every moment, so filtering through it admits what a scan would.
  lemma {:induction false} FilterAgreesWithScan(config: Config, steps: seq<Step>, args: seq<Option<Certificate>>)
    ensures UnknownByIndex(Run(config, steps), config, args) == Unknown(Run(config, steps).certs, args)
    decreases |args|
  {
    RunKeepsInv(config, steps);
    if args != [] {
      FilterAgreesWithScan(config, steps, args[..|args| - 1]);
      var last := args[|args| - 1];
      if last.Some? {
        IndexFindsAll(Run(config, steps).certs, config.subject, Run(config, steps).index, last.value);
      }
    }
  }

  // ---- What one Get returns ----

  lemma RunStep(config: Config, steps: seq<Step>, step: Step)
    ensures Run(config, steps + [step]) == Next(Run(config, steps), config, step)
  {
    assert (steps + [step])[..|steps|] == steps;
  }

  lemma StepOfRun(config: Config, steps: seq<Step>, i: nat)
    requires i < |steps|
    ensures Run(config, steps[..i + 1]) == Next(Run(config, steps[..i]), config, steps[i])
  {
    assert steps[..i + 1] == steps[..i] + [steps[i]];
    RunStep(config, steps[..i], steps[i]);
  }

  // The step in which a Get replaces the pool.
  ghost predicate Rebuilds(p: Pool, step: Step) {
    step.action.GetRebuild? && p.PcOf(step.thread).Won? && p.LockFree()
  }

  ghost predicate RebuildsAt(config: Config, steps: seq<Step>, k: nat)
    requires k < |steps|
  {
    Rebuilds(Run(config, steps[..k]), steps[k])
  }

  lemma StoredGrows(certs: seq<Certificate>, certs': seq<Certificate>, c: Certificate)
    requires certs <= certs' && Stored(certs, c)
    ensures Stored(certs', c)
  {
    var k :| 0 <= k < |certs| && certs[k].Same(c);
    assert certs'[k].Same(c);
  }

  lemma StepHolds(p: Pool, config: Config, step: Step, c: Certificate)
    requires Stored(p.certs, c)
    ensures var p' := Next(p, config, step);
            && Stored(p'.certs, c)
            && (Stored(p'.pool, c) <==> Stored(p.pool, c) || Rebuilds(p, step))
  {
    var p' := Next(p, config, step);
    StoredGrows(p.certs, p'.certs, c);
    if Rebuilds(p, step) {
      BuiltHoldsAll(config.system, p.certs);
    }
  }

  lemma HoldsAt(config: Config, steps: seq<Step>, k: nat, c: Certificate)
    requires k < |steps| && Stored(Run(config, steps[..k]).certs, c)
    ensures Stored(Run(config, steps[..k + 1]).certs, c)
    ensures Stored(Run(config, steps[..k + 1]).pool, c) <==>
            Stored(Run(config, steps[..k]).pool, c) || RebuildsAt(config, steps, k)
  {
    StepOfRun(config, steps, k);
    StepHolds(Run(config, steps[..k]), config, steps[k], c);
  }

  // A stored certificate is in the pool from the first rebuild on.
  lemma HeldIff(config: Config, steps: seq<Step>, i: nat, j: nat, c: Certificate)
    requires i <= j <= |steps| && Stored(Run(config, steps[..i]).certs, c)
    ensures Stored(Run(config, steps[..j]).pool, c) <==>
            Stored(Run(config, steps[..i]).pool, c) || exists k :: i <= k < j && RebuildsAt(config, steps, k)
  {
    var n := |steps|;
    var known := seq(n + 1, k requires 0 <= k <= n => Stored(Run(config, steps[..k]).certs, c));
    var held := seq(n + 1, k requires 0 <= k <= n => Stored(Run(config, steps[..k]).pool, c));
    var rebuilt := seq(n, k requires 0 <= k < n => RebuildsAt(config, steps, k));
    forall k | 0 <= k < n
      ensures known[k] ==> known[k + 1] && held[k + 1] == (held[k] || rebuilt[k])
    {
      if known[k] { HoldsAt(config, steps, k, c); }
    }
    RaisedIff(known, held, rebuilt, i, j);
    assert forall k :: 0 <= k < n ==> rebuilt[k] == RebuildsAt(config, steps, k);
  }

  // From when it counts, a flag raised by events is up exactly when it was or one of them has happened since.
  lemma {:induction false} RaisedIff(counts: seq<bool>, flags: seq<bool>, events: seq<bool>, i: nat, j: nat)
    requires i <= j <= |events| && |counts| == |flags| == |events| + 1 && counts[i]
    requires forall k :: 0 <= k < |events| ==> counts[k] ==> counts[k + 1] && flags[k + 1] == (flags[k] || events[k])
    ensures counts[j] && (flags[j] <==> flags[i] || exists k :: i <= k < j && events[k])
    decreases j - i
  {
    if i < j {
      RaisedIff(counts, flags, events, i, j - 1);
      assert counts[j - 1 + 1] && flags[j - 1 + 1] == (flags[j - 1] || events[j - 1]);
    }
  }

  // Thread t runs one Get, from its swap in step i to its read in step j.
  ghost predicate GetSpans(config: Config, steps: seq<Step>, t: nat, i: nat, j: nat) {
    && i < j < |steps|
    && steps[i] == Step(t, GetSwap) && Run(config, steps[..i]).PcOf(t) == Outside
    && steps[j] == Step(t, GetRead) && Run(config, steps[..j]).PcOf(t) == Reading && Run(config, steps[..j]).LockFree()
    && forall k :: i < k <= j ==> Run(config, steps[..k]).PcOf(t) != Outside
  }

  // A Get misses a certificate that was stored when it began if and only if the pool lacked it then and no
  // Get, this one included, replaced the pool before it was read.
  lemma GetMissesIff(config: Config, steps: seq<Step>, t: nat, i: nat, j: nat, c: Certificate)
    returns (result: seq<Certificate>)
    requires GetSpans(config, steps, t, i, j) && Stored(Run(config, steps[..i]).certs, c)
    ensures Run(config, steps[..j + 1]).results == Run(config, steps[..j]).results + [result]
    ensures !Stored(result, c) <==>
            && !Stored(Run(config, steps[..i]).pool, c)
            && forall k :: i <= k < j ==> !RebuildsAt(config, steps, k)
  {
    HeldIff(config, steps, i, j, c);
    StepOfRun(config, steps, j);
    result := Run(config, steps[..j]).pool;
  }

  lemma WinnerNext(p: Pool, config: Config, step: Step, t: nat)
    requires p.PcOf(t) == Won && !Rebuilds(p, step)
    ensures Next(p, config, step).PcOf(t) == Won
  {
  }

  // A Get always begins, and takes the flag down if it was up.
  lemma SwapBegins(p: Pool, config: Config, t: nat)
    requires p.PcOf(t) == Outside
    ensures Next(p, config, Step(t, GetSwap)).PcOf(t) == if p.dirty then Won else Reading
    ensures !Next(p, config, Step(t, GetSwap)).dirty
  {
  }

  lemma WinnerStep(config: Config, steps: seq<Step>, t: nat, k: nat)
    requires k < |steps| && Run(config, steps[..k]).PcOf(t) == Won && !RebuildsAt(config, steps, k)
    ensures Run(config, steps[..k + 1]).PcOf(t) == Won
  {
    StepOfRun(config, steps, k);
    WinnerNext(Run(config, steps[..k]), config, steps[k], t);
  }

  // A flag that only events take down is up unless one of them has happened.
  lemma {:induction false} Lasts(flags: seq<bool>, events: seq<bool>, i: nat, j: nat)
    requires i <= j <= |events| && |flags| == |events| + 1 && flags[i]
    requires forall k :: 0 <= k < |events| ==> flags[k] && !events[k] ==> flags[k + 1]
    ensures flags[j] || exists k :: i <= k < j && events[k]
    decreases j - i
  {
    if i < j {
      Lasts(flags, events, i, j - 1);
      assert flags[j - 1] && !events[j - 1] ==> flags[j - 1 + 1];
    }
  }

  // A Get that won the swap replaces the pool before it reads it.
  lemma WinnerRebuilds(config: Config, steps: seq<Step>, t: nat, i: nat, j: nat)
    requires i <= j <= |steps| && Run(config, steps[..i]).PcOf(t) == Won && Run(config, steps[..j]).PcOf(t) != Won
    ensures exists k :: i <= k < j && RebuildsAt(config, steps, k)
  {
    var n := |steps|;
    var won := seq(n + 1, k requires 0 <= k <= n => Run(config, steps[..k]).PcOf(t) == Won);
    var rebuilt := seq(n, k requires 0 <= k < n => RebuildsAt(config, steps, k));
    forall k | 0 <= k < n ensures won[k] && !rebuilt[k] ==> won[k + 1] {
      if won[k] && !rebuilt[k] { WinnerStep(config, steps, t, k); }
    }
    Lasts(won, rebuilt, i, j);
    assert forall k :: 0 <= k < n ==> rebuilt[k] == RebuildsAt(config, steps, k);
  }

  // So a miss means that it found the flag down.
  lemma MissFoundFlagDown(config: Config, steps: seq<Step>, t: nat, i: nat, j: nat)
    requires GetSpans(config, steps, t, i, j)
    requires forall k :: i <= k < j ==> !RebuildsAt(config, steps, k)
    ensures !Run(config, steps[..i]).dirty
  {
    if Run(config, steps[..i]).dirty {
      StepOfRun(config, steps, i);
      SwapBegins(Run(config, steps[..i]), config, t);
      WinnerRebuilds(config, steps, t, i + 1, j);
    }
  }

  // ---- The promise on Get: the certificates of any previous Add ----

  // Thread u runs one Add, from step f until it has returned before step a.
  ghost predicate AddSpans(config: Config, steps: seq<Step>, u: nat, args: seq<Option<Certificate>>, f: nat, a: nat) {
    && f < a <= |steps|
    && steps[f] == Step(u, AddFilter(args)) && Run(config, steps[..f]).PcOf(u) == Outside
    && Run(config, steps[..f]).LockFree()
    && (forall k :: f < k < a ==> Run(config, steps[..k]).PcOf(u) != Outside)
    && Run(config, steps[..a]).PcOf(u) == Outside
  }

  // What an Add still has to do for one of its certificates.
  ghost predicate Underway(p: Pool, u: nat, c: Certificate) {
    && (Stored(p.certs, c) || ((p.PcOf(u).Filtered? || p.PcOf(u).Appending?) && c in p.PcOf(u).todo))
    && (p.PcOf(u) == Outside ==> p.marked == |p.certs|)
  }

  lemma UnlockedIsMarked(p: Pool)
    requires Announced(p) && p.LockFree()
    ensures p.marked == |p.certs|
  {
    assert forall t: nat :: !HoldsLock(p.PcOf(t));
  }

  lemma FilterBegins(p: Pool, config: Config, u: nat, args: seq<Option<Certificate>>, c: Certificate)
    requires p.PcOf(u) == Outside && p.LockFree() && p.marked == |p.certs|
    requires UnknownByIndex(p, config, args) == Unknown(p.certs, args)
    requires c in Admitted(p.certs, args) <==> !Stored(p.certs, c)
    ensures var p' := Next(p, config, Step(u, AddFilter(args)));
            Underway(p', u, c) && (Adding(p'.PcOf(u)) || p'.PcOf(u) == Outside)
  {
    var todo := Admitted(p.certs, args);
    var p' := Next(p, config, Step(u, AddFilter(args)));
    assert p' == if todo == [] then p else p.Goto(u, Filtered(todo));
  }

  // What others do leaves an Add where it is, and what it has stored.
  lemma OthersStep(p: Pool, config: Config, step: Step, u: nat)
    requires step.thread != u
    ensures var p' := Next(p, config, step); p'.PcOf(u) == p.PcOf(u) && p.certs <= p'.certs
  {
  }

  predicate Adding(pc: Pc) {
    pc.Filtered? || pc.Appending? || pc.Marked?
  }

  lemma OwnStep(p: Pool, config: Config, action: Action, u: nat, c: Certificate)
    requires OneHolder(p) && Announced(p) && Adding(p.PcOf(u)) && Underway(p, u, c)
    ensures var p' := Next(p, config, Step(u, action));
            Underway(p', u, c) && (Adding(p'.PcOf(u)) || p'.PcOf(u) == Outside)
  {
    var p' := Next(p, config, Step(u, action));
    if action == AddAppend && p' != p { PushHolds(p.certs, p.PcOf(u).todo[0], c); }
    if p'.PcOf(u) == Outside { assert HoldsLock(p.PcOf(u)); }
  }

  lemma StepUnderway(p: Pool, config: Config, step: Step, u: nat, c: Certificate)
    requires OneHolder(p) && Announced(p) && Adding(p.PcOf(u)) && Underway(p, u, c)
    ensures var p' := Next(p, config, step);
            Underway(p', u, c) && (Adding(p'.PcOf(u)) || p'.PcOf(u) == Outside)
  {
    if step.thread == u {
      OwnStep(p, config, step.action, u, c);
    } else {
      OthersStep(p, config, step, u);
      if Stored(p.certs, c) { StoredGrows(p.certs, Next(p, config, step).certs, c); }
    }
  }

  ghost predicate UnderwayAt(config: Config, steps: seq<Step>, u: nat, k: nat, c: Certificate)
    requires k <= |steps|
  {
    var p := Run(config, steps[..k]);
    Underway(p, u, c) && (Adding(p.PcOf(u)) || p.PcOf(u) == Outside)
  }

  lemma FilterAt(config: Config, steps: seq<Step>, u: nat, args: seq<Option<Certificate>>, f: nat, c: Certificate)
    requires f < |steps| && steps[f] == Step(u, AddFilter(args)) && Run(config, steps[..f]).PcOf(u) == Outside
    requires Run(config, steps[..f]).LockFree() && Some(c) in args
    ensures UnderwayAt(config, steps, u, f + 1, c)
  {
    StepOfRun(config, steps, f);
    RunKeepsInv(config, steps[..f]);
    FilterAgreesWithScan(config, steps[..f], args);
    AdmittedExactly(Run(config, steps[..f]).certs, args);
    UnlockedIsMarked(Run(config, steps[..f]));
    FilterBegins(Run(config, steps[..f]), config, u, args, c);
  }

  lemma UnderwayStep(config: Config, steps: seq<Step>, u: nat, k: nat, c: Certificate)
    requires k < |steps| && UnderwayAt(config, steps, u, k, c) && Run(config, steps[..k]).PcOf(u) != Outside
    ensures UnderwayAt(config, steps, u, k + 1, c)
  {
    StepOfRun(config, steps, k);
    RunKeepsInv(config, steps[..k]);
    StepUnderway(Run(config, steps[..k]), config, steps[k], u, c);
  }

  lemma UnderwayStays(config: Config, steps: seq<Step>, u: nat, f: nat, a: nat, c: Certificate)
    requires f <= a <= |steps| && UnderwayAt(config, steps, u, f, c)
    requires forall k :: f <= k < a ==> Run(config, steps[..k]).PcOf(u) != Outside
    ensures UnderwayAt(config, steps, u, a, c)
  {
    var n := |steps|;
    var underway := seq(n + 1, k requires 0 <= k <= n => UnderwayAt(config, steps, u, k, c));
    var outside := seq(n, k requires 0 <= k < n => Run(config, steps[..k]).PcOf(u) == Outside);
    forall k | 0 <= k < n ensures underway[k] && !outside[k] ==> underway[k + 1] {
      if underway[k] && !outside[k] { UnderwayStep(config, steps, u, k, c); }
    }
    Lasts(underway, outside, f, a);
  }

  // The certificates an Add has announced stay stored and announced.
  lemma StepKeepsMarked(p: Pool, config: Config, step: Step, c: Certificate)
    requires IsMarked(p, c)
    ensures IsMarked(Next(p, config, step), c)
  {
    var p' := Next(p, config, step);
    assert p.certs <= p'.certs && p.marked <= p'.marked <= |p'.certs|;
    assert p.certs[..p.marked] <= p'.certs[..p'.marked];
    StoredGrows(p.certs[..p.marked], p'.certs[..p'.marked], c);
  }

  ghost predicate IsMarked(p: Pool, c: Certificate) {
    p.marked <= |p.certs| && Stored(p.certs[..p.marked], c)
  }

  lemma MarkedAt(config: Config, steps: seq<Step>, k: nat, c: Certificate)
    requires k < |steps| && IsMarked(Run(config, steps[..k]), c)
    ensures IsMarked(Run(config, steps[..k + 1]), c)
  {
    StepOfRun(config, steps, k);
    StepKeepsMarked(Run(config, steps[..k]), config, steps[k], c);
  }

  lemma MarkedStays(config: Config, steps: seq<Step>, a: nat, i: nat, c: Certificate)
    requires a <= i <= |steps| && IsMarked(Run(config, steps[..a]), c)
    ensures IsMarked(Run(config, steps[..i]), c)
  {
    var n := |steps|;
    var marked := seq(n + 1, k requires 0 <= k <= n => IsMarked(Run(config, steps[..k]), c));
    var never := seq(n, _ => false);
    forall k | 0 <= k < n ensures marked[k] && !never[k] ==> marked[k + 1] {
      if marked[k] { MarkedAt(config, steps, k, c); }
    }
    Lasts(marked, never, a, i);
  }

  lemma MarkedMissing(p: Pool, config: Config, c: Certificate)
    requires Inv(p, config) && IsMarked(p, c)
    ensures Stored(p.certs, c)
    ensures !Stored(p.pool, c) ==> p.dirty || exists u: nat :: p.PcOf(u).Won?
  {
    StoredGrows(p.certs[..p.marked], p.certs, c);
    BuiltHoldsAll(config.system, p.certs[..p.covered]);
    if p.marked <= p.covered {
      assert p.certs[..p.marked] <= p.certs[..p.covered];
      StoredGrows(p.certs[..p.marked], p.certs[..p.covered], c);
    }
  }

  // When an Add has returned its certificates are stored and announced, and stay so.
  lemma AddedIsMarked(config: Config, steps: seq<Step>, u: nat, args: seq<Option<Certificate>>, f: nat, a: nat,
                      i: nat, c: Certificate)
    requires AddSpans(config, steps, u, args, f, a) && Some(c) in args && a <= i <= |steps|
    ensures IsMarked(Run(config, steps[..i]), c)
  {
    FilterAt(config, steps, u, args, f, c);
    UnderwayStays(config, steps, u, f + 1, a, c);
    var p := Run(config, steps[..a]);
    assert p.certs[..p.marked] == p.certs;
    MarkedStays(config, steps, a, i, c);
  }

  // A Get that begins after an Add has returned misses one of its certificates if and only if the pool lacked
  // it when the Get began and nobody replaced the pool before it was read. That takes another Get: one that had
  // taken the flag down by then and not yet rebuilt.
  lemma GetAfterAddMissesIff(config: Config, steps: seq<Step>, u: nat, args: seq<Option<Certificate>>, f: nat, a: nat,
                             t: nat, i: nat, j: nat, c: Certificate)
    returns (result: seq<Certificate>)
    requires AddSpans(config, steps, u, args, f, a) && Some(c) in args
    requires a <= i && GetSpans(config, steps, t, i, j)
    ensures Run(config, steps[..j + 1]).results == Run(config, steps[..j]).results + [result]
    ensures !Stored(result, c) <==>
            && !Stored(Run(config, steps[..i]).pool, c)
            && forall k :: i <= k < j ==> !RebuildsAt(config, steps, k)
    ensures !Stored(result, c) ==>
            !Run(config, steps[..i]).dirty && exists v: nat :: v != t && Run(config, steps[..i]).PcOf(v).Won?
  {
    AddedIsMarked(config, steps, u, args, f, a, i, c);
    RunKeepsInv(config, steps[..i]);
    MarkedMissing(Run(config, steps[..i]), config, c);
    result := GetMissesIff(config, steps, t, i, j, c);
    if !Stored(result, c) { MissFoundFlagDown(config, steps, t, i, j); }
  }

  // ---- What happens when nobody calls any more ----

  // Nothing can move unless somebody begins an Add or a Get.
  ghost predicate AtRest(p: Pool, config: Config) {
    forall step: Step :: !step.action.AddFilter? && step.action != GetSwap ==> Next(p, config, step) == p
  }

  lemma HolderMoves(p: Pool, config: Config, t: nat) returns (step: Step)
    requires HoldsLock(p.PcOf(t))
    ensures !step.action.AddFilter? && step.action != GetSwap && Next(p, config, step) != p
  {
    step := Step(t, if p.PcOf(t) == Marked then AddUnlock else if p.PcOf(t).todo == [] then AddMark else AddAppend);
    assert Next(p, config, step).PcOf(t) != p.PcOf(t) by {
      if step.action == AddAppend { assert |p.PcOf(t).todo[1..]| < |p.PcOf(t).todo|; }
    }
  }

  lemma WaiterMoves(p: Pool, config: Config, t: nat) returns (step: Step)
    requires p.LockFree() && p.PcOf(t) != Outside
    ensures !step.action.AddFilter? && step.action != GetSwap && Next(p, config, step) != p
  {
    assert !HoldsLock(p.PcOf(t));
    step := Step(t, match p.PcOf(t) case Filtered(_) => AddLock case Won => GetRebuild case _ => GetRead);
    assert Next(p, config, step).PcOf(t) != p.PcOf(t);
  }

  // No thread ever waits for good: once nothing can move, every Add and every Get has returned, and the pool holds
  // everything added unless the flag asks the next Get to rebuild it.
  lemma RestMeansReturned(config: Config, steps: seq<Step>)
    requires AtRest(Run(config, steps), config)
    ensures var p := Run(config, steps);
            && (forall t: nat :: p.PcOf(t) == Outside)
            && (!p.dirty ==> p.pool == Built(config.system, p.certs))
  {
    var p := Run(config, steps);
    RestIsOutside(p, config);
    if !p.dirty { QuiescentPoolIsComplete(config, steps); }
  }

  lemma RestIsOutside(p: Pool, config: Config)
    requires AtRest(p, config)
    ensures forall t: nat :: p.PcOf(t) == Outside
  {
    forall t: nat ensures !HoldsLock(p.PcOf(t)) {
      if HoldsLock(p.PcOf(t)) { var step := HolderMoves(p, config, t); }
    }
    forall t: nat ensures p.PcOf(t) == Outside {
      if p.PcOf(t) != Outside { var step := WaiterMoves(p, config, t); }
    }
  }

  // ---- What a Get does not promise ----

  // Thread 0 has added c, thread 1 has taken the flag down, thread 2 has got this far.
  ghost predicate Stale(p: Pool, c: Certificate, pc0: Pc, pc1: Pc, pc2: Pc, dirty: bool) {
    && p.PcOf(0) == pc0 && p.PcOf(1) == pc1 && p.PcOf(2) == pc2 && p.dirty == dirty
    && p.pcs.Keys <= {0, 1, 2}
    && p.certs == (if pc0.Filtered? || (pc0.Appending? && pc0.todo != []) then [] else [c])
    && p.pool == [] && p.covered == 0 && p.results == []
  }

  lemma StaleFilter(config: Config, c: Certificate)
    requires config.system == []
    ensures Stale(Run(config, [Step(0, AddFilter([Some(c)]))]), c, Filtered([c]), Outside, Outside, false)
  {
    var p := NewPool(config);
    assert [Some(c)][..0] == [] && [c][..0] == [];
    assert UnknownByIndex(p, config, [Some(c)]) == [c];
    assert Distinct([c]) == [c];
    RunStep(config, [], Step(0, AddFilter([Some(c)])));
    assert [] + [Step(0, AddFilter([Some(c)]))] == [Step(0, AddFilter([Some(c)]))];
  }

  lemma StaleLocked(config: Config, steps: seq<Step>, c: Certificate) returns (steps': seq<Step>)
    requires Stale(Run(config, steps), c, Filtered([c]), Outside, Outside, false)
    ensures steps' == steps + [Step(0, AddLock)] + [Step(0, AddAppend)]
    ensures Stale(Run(config, steps'), c, Appending([]), Outside, Outside, false)
  {
    RunStep(config, steps, Step(0, AddLock));
    var locked := steps + [Step(0, AddLock)];
    assert Stale(Run(config, locked), c, Appending([c]), Outside, Outside, false);
    assert [c][1..] == [];
    RunStep(config, locked, Step(0, AddAppend));
    steps' := locked + [Step(0, AddAppend)];
  }

  lemma StaleAdded(config: Config, steps: seq<Step>, c: Certificate) returns (steps': seq<Step>)
    requires Stale(Run(config, steps), c, Appending([]), Outside, Outside, false)
    ensures steps' == steps + [Step(0, AddMark)] + [Step(0, AddUnlock)]
    ensures Stale(Run(config, steps'), c, Outside, Outside, Outside, true)
  {
    RunStep(config, steps, Step(0, AddMark));
    var marked := steps + [Step(0, AddMark)];
    assert Stale(Run(config, marked), c, Marked, Outside, Outside, true);
    RunStep(config, marked, Step(0, AddUnlock));
    steps' := marked + [Step(0, AddUnlock)];
  }

  lemma StaleAdds(config: Config, steps: seq<Step>, c: Certificate) returns (steps': seq<Step>)
    requires Stale(Run(config, steps), c, Filtered([c]), Outside, Outside, false)
    ensures steps' == steps + [Step(0, AddLock), Step(0, AddAppend), Step(0, AddMark), Step(0, AddUnlock)]
    ensures Stale(Run(config, steps'), c, Outside, Outside, Outside, true)
  {
    steps' := StaleLocked(config, steps, c);
    steps' := StaleAdded(config, steps', c);
  }

  lemma StaleSwap(config: Config, steps: seq<Step>, c: Certificate) returns (steps': seq<Step>)
    requires Stale(Run(config, steps), c, Outside, Outside, Outside, true)
    ensures steps' == steps + [Step(1, GetSwap)]
    ensures Stale(Run(config, steps'), c, Outside, Won, Outside, false)
  {
    RunStep(config, steps, Step(1, GetSwap));
    steps' := steps + [Step(1, GetSwap)];
  }

  lemma StaleRead(config: Config, steps: seq<Step>, c: Certificate) returns (steps': seq<Step>)
    requires Stale(Run(config, steps), c, Outside, Won, Outside, false)
    ensures steps' == steps + [Step(2, GetSwap)] + [Step(2, GetRead)]
    ensures Run(config, steps').results == [[]] && Run(config, steps').certs == [c]
  {
    RunStep(config, steps, Step(2, GetSwap));
    var swapped := steps + [Step(2, GetSwap)];
    var p := Run(config, swapped);
    assert Stale(p, c, Outside, Won, Reading, false);
    assert p.LockFree();
    RunStep(config, swapped, Step(2, GetRead));
    steps' := swapped + [Step(2, GetRead)];
  }

  lemma StaleAddReturns(config: Config, c: Certificate) returns (steps: seq<Step>)
    requires config.system == []
    ensures steps == [Step(0, AddFilter([Some(c)])), Step(0, AddLock), Step(0, AddAppend), Step(0, AddMark),
                      Step(0, AddUnlock)]
    ensures Stale(Run(config, steps), c, Outside, Outside, Outside, true)
  {
    StaleFilter(config, c);
    steps := [Step(0, AddFilter([Some(c)]))];
    steps := StaleAdds(config, steps, c);
  }

  lemma StaleGets(config: Config, steps: seq<Step>, c: Certificate) returns (steps': seq<Step>)
    requires Stale(Run(config, steps), c, Outside, Outside, Outside, true)
    ensures steps' == steps + [Step(1, GetSwap), Step(2, GetSwap), Step(2, GetRead)]
    ensures Run(config, steps').results == [[]] && Run(config, steps').certs == [c]
  {
    steps' := StaleSwap(config, steps, c);
    steps' := StaleRead(config, steps', c);
  }

  // A Get that starts after an Add has returned can still miss its certificate, while another Get rebuilds.
  lemma OverlappingGetMisses(config: Config, c: Certificate) returns (steps: seq<Step>)
    requires config.system == []
    ensures steps == [Step(0, AddFilter([Some(c)])), Step(0, AddLock), Step(0, AddAppend), Step(0, AddMark),
                      Step(0, AddUnlock)] + [Step(1, GetSwap), Step(2, GetSwap), Step(2, GetRead)]
    ensures Run(config, steps).certs == [c]
    ensures Run(config, steps).results == [[]] && !Stored([], c)
  {
    var added := StaleAddReturns(config, c);
    steps := StaleGets(config, added, c);
  }
}
