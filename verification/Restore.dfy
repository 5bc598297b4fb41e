/** Online restore: staging an uploaded backup, applying it at the next start, confirming
    it once the server is ready, rolling back otherwise. */
module Restore {
  import opened Dns

  type Content = string
  type Token = string
  type SafetyName = int

  /** The two files of an installation; either may be missing. */
  datatype Pair = Pair(db: Option<Content>, config: Option<Content>)

  datatype Bundle = Bundle(token: Token, db: Content, config: Content)

  /** An inspected upload; its files are gone once a staging moved them and then failed. */
  datatype Stage = Stage(bundle: Bundle, expires: int, files: bool)

  datatype Phase = Pending | Applied | Completed | RolledBack | Failed

  datatype Record = Record(phase: Phase, safety: Option<SafetyName>)

  /** What is on disk, and which upload tokens were handed out so far. */
  datatype Disk = Disk(live: Pair, safeties: map<SafetyName, Pair>, pending: Option<Bundle>,
                       record: Option<Record>, stages: map<Token, Stage>, issued: set<Token>)

  /** Where replacing the live files can fail. */
  datatype Fault = Never | Unreadable | BeforeSafety | CopyDb | CopyConfig | RenameDb | RenameConfig | Check

  /** Where staging a restore can fail. */
  datatype StageFault = StageWorks | RemoveFails | MoveFails | ManifestFails | StateFails

  /** Which files cannot be copied back. */
  datatype Stuck = Stuck(db: bool, config: bool)

  // ---------- what each operation does ----------

  /** The live files after those in a safety copy are put back. */
  function PutBack(live: Pair, safety: Pair, stuck: Stuck): Pair {
    Pair(if safety.db.Some? && !stuck.db then safety.db else live.db,
         if safety.config.Some? && !stuck.config then safety.config else live.config)
  }

  predicate PutBackFails(safety: Pair, stuck: Stuck) {
    (safety.db.Some? && stuck.db) || (safety.config.Some? && stuck.config)
  }

  /** The live files when replacing them stops at a fault, before anything is put back. */
  function Replaced(live: Pair, b: Bundle, fault: Fault): Pair {
    if fault.RenameDb? then live
    else if fault.RenameConfig? then live.(db := Some(b.db))
    else Pair(Some(b.db), Some(b.config))
  }

  datatype Swap = Swap(disk: Disk, safety: Option<SafetyName>, ok: bool)

  /** The safety copy, and whether it is complete. */
  function Saved(d: Disk, at: SafetyName, fault: Fault): (Disk, bool) {
    if fault.CopyDb? && d.live.db.Some? then (d.(safeties := d.safeties[at := Pair(None, None)]), false)
    else if fault.CopyConfig? && d.live.config.Some? then (d.(safeties := d.safeties[at := Pair(d.live.db, None)]), false)
    else (d.(safeties := d.safeties[at := d.live]), true)
  }

  /** Replacing the live files, or putting back those of the safety copy. */
  function Replacing(d: Disk, b: Bundle, before: Pair, fault: Fault, stuck: Stuck): (Disk, bool) {
    var put := Replaced(d.live, b, fault);
    if fault.RenameDb? || fault.RenameConfig? || fault.Check? then (d.(live := PutBack(put, before, stuck)), false)
    else (d.(live := put), true)
  }

  function SwapOf(d: Disk, b: Bundle, at: SafetyName, fault: Fault, stuck: Stuck): Swap {
    if fault.BeforeSafety? || at in d.safeties then Swap(d, None, false)
    else
      var (kept, complete) := Saved(d, at, fault);
      if !complete then Swap(kept, Some(at), false)
      else
        var (out, ok) := Replacing(kept, b, d.live, fault, stuck);
        Swap(out, Some(at), ok)
  }

  predicate InPhase(d: Disk, phase: Phase) { d.record.Some? && d.record.value.phase == phase }

  /** The start that finds an unconfirmed restore. `recorded` says whether the state file
      could be written. */
  function RolledBackDisk(d: Disk, stuck: Stuck, recorded: bool): Disk
    requires InPhase(d, Applied)
  {
    var r := d.record.value;
    var saved := SafetyOf(d, r.safety);
    var phase := if r.safety.None? || PutBackFails(saved, stuck) then Failed else RolledBack;
    d.(live := PutBack(d.live, saved, stuck), record := if recorded then Some(r.(phase := phase)) else d.record)
  }

  /** The files of a safety copy; none if it is not there. */
  function SafetyOf(d: Disk, name: Option<SafetyName>): Pair {
    if name.Some? && name.value in d.safeties then d.safeties[name.value] else Pair(None, None)
  }

  /** The start that finds a pending restore. */
  function AppliedDisk(d: Disk, at: SafetyName, fault: Fault, stuck: Stuck, recorded: bool): Disk
    requires d.pending.Some?
  {
    if fault.Unreadable? then d.(pending := None)
    else
      var swap := SwapOf(d, d.pending.value, at, fault, stuck);
      swap.disk.(pending := None,
                 record := if recorded then Some(Record(if swap.ok then Applied else RolledBack, swap.safety)) else d.record)
  }

  function Started(d: Disk, at: SafetyName, fault: Fault, stuck: Stuck, recorded: bool): Disk {
    if InPhase(d, Applied) then RolledBackDisk(d, stuck, recorded)
    else if d.pending.None? then d
    else AppliedDisk(d, at, fault, stuck, recorded)
  }

  function Confirmed(d: Disk, recorded: bool): Disk {
    if InPhase(d, Applied) && recorded then d.(record := Some(d.record.value.(phase := Completed))) else d
  }

  /** Staging succeeds. */
  predicate Stageable(d: Disk, token: Token, now: int, fault: StageFault) {
    token in d.stages && now <= d.stages[token].expires && d.stages[token].files && fault.StageWorks?
  }

  function Staged(d: Disk, token: Token, now: int, fault: StageFault): Disk {
    if token !in d.stages then d
    else if now > d.stages[token].expires then d.(stages := d.stages - {token})
    else if fault.RemoveFails? then d
    else if fault.MoveFails? || !d.stages[token].files then d.(pending := None)
    else if fault.ManifestFails? then d.(pending := None, stages := d.stages[token := d.stages[token].(files := false)])
    else if fault.StateFails? then d.(pending := None, stages := d.stages - {token})
    else d.(pending := Some(d.stages[token].bundle), stages := d.stages - {token}, record := Some(Record(Pending, None)))
  }

  /** An upload gets a token that was never used, and first drops what is too old. */
  function Uploaded(d: Disk, b: Bundle, expires: int, dropped: set<Token>): Disk {
    d.(stages := (d.stages - dropped)[b.token := Stage(b, expires, true)], issued := d.issued + {b.token})
  }

  // ---------- the operations on the files ----------

  class Installation {
    var live: Pair
    var safeties: map<SafetyName, Pair>
    var pending: Option<Bundle>
    var record: Option<Record>
    var stages: map<Token, Stage>
    ghost var issued: set<Token>

    ghost function Contents(): Disk reads this { Disk(live, safeties, pending, record, stages, issued) }

    method StageRestore(token: Token, now: int, fault: StageFault) returns (ok: bool)
      modifies this
      ensures Contents() == Staged(old(Contents()), token, now, fault)
      ensures ok <==> Stageable(old(Contents()), token, now, fault)
    {
      if token !in stages {
        return false;
      }
      if now > stages[token].expires {
        stages := stages - {token};
        return false;
      }
      if fault.RemoveFails? {
        return false;
      }
      pending := None;
      if fault.MoveFails? || !stages[token].files {
        return false;
      }
      var bundle := stages[token].bundle;
      stages := stages[token := stages[token].(files := false)];
      if fault.ManifestFails? {
        return false;
      }
      pending := Some(bundle);
      stages := stages - {token};
      if fault.StateFails? {
        pending := None;
        return false;
      }
      record := Some(Record(Pending, None));
      return true;
    }

    method RollbackTo(safety: Option<SafetyName>, stuck: Stuck) returns (ok: bool)
      modifies this`live
      ensures live == PutBack(old(live), SafetyOf(old(Contents()), safety), stuck)
      ensures ok == (safety.Some? && !PutBackFails(SafetyOf(old(Contents()), safety), stuck))
    {
      if safety.None? {
        return false;
      }
      ok := true;
      if safety.value !in safeties {
        return;
      }
      var saved := safeties[safety.value];
      if saved.db.Some? {
        if stuck.db {
          ok := false;
        } else {
          live := live.(db := saved.db);
        }
      }
      if saved.config.Some? {
        if stuck.config {
          ok := false;
        } else {
          live := live.(config := saved.config);
        }
      }
    }

    /** Copies what is live, one file after the other. */
    method KeepSafety(at: SafetyName, fault: Fault) returns (complete: bool)
      modifies this`safeties
      ensures (Contents(), complete) == Saved(old(Contents()), at, fault)
    {
      safeties := safeties[at := Pair(None, None)];
      if live.db.Some? {
        if fault.CopyDb? {
          return false;
        }
        safeties := safeties[at := safeties[at].(db := live.db)];
      }
      if live.config.Some? {
        if fault.CopyConfig? {
          assert safeties == old(safeties)[at := Pair(live.db, None)];
          return false;
        }
        safeties := safeties[at := safeties[at].(config := live.config)];
      }
      assert safeties[at] == live && safeties == old(safeties)[at := live];
      return true;
    }

    /** Renames the staged files over the live ones, or goes back to the safety copy. */
    method Replace(b: Bundle, at: SafetyName, fault: Fault, stuck: Stuck) returns (ok: bool)
      requires at in safeties
      modifies this`live
      ensures (Contents(), ok) == Replacing(old(Contents()), b, safeties[at], fault, stuck)
    {
      if !fault.RenameDb? {
        live := live.(db := Some(b.db));
        if !fault.RenameConfig? {
          live := live.(config := Some(b.config));
          if !fault.Check? {
            return true;
          }
        }
      }
      var _ := RollbackTo(Some(at), stuck);
      return false;
    }

    method SwapIn(b: Bundle, at: SafetyName, fault: Fault, stuck: Stuck) returns (safety: Option<SafetyName>, ok: bool)
      modifies this`live, this`safeties
      ensures Swap(Contents(), safety, ok) == SwapOf(old(Contents()), b, at, fault, stuck)
    {
      if fault.BeforeSafety? || at in safeties {
        return None, false;
      }
      var complete := KeepSafety(at, fault);
      if !complete {
        return Some(at), false;
      }
      ok := Replace(b, at, fault, stuck);
      return Some(at), ok;
    }

    /** Whether the configuration changed, and whether the start may go on. */
    method PrepareStartup(at: SafetyName, fault: Fault, stuck: Stuck, recorded: bool) returns (changed: bool, ok: bool)
      modifies this
      ensures Contents() == Started(old(Contents()), at, fault, stuck, recorded)
      ensures var d := old(Contents());
              if InPhase(d, Applied) then
                changed == (d.record.value.safety.Some? && !PutBackFails(SafetyOf(d, d.record.value.safety), stuck)) && ok == (changed && recorded)
              else changed == Swaps(d, at, fault, stuck) && ok == (if d.pending.Some? && fault.Unreadable? then false else changed ==> recorded)
    {
      if record.Some? && record.value.phase == Applied {
        changed := RollbackTo(record.value.safety, stuck);
        if recorded {
          record := Some(record.value.(phase := if changed then RolledBack else Failed));
        }
        return changed, changed && recorded;
      }
      if pending.None? {
        return false, true;
      }
      if fault.Unreadable? {
        pending := None;
        return false, false;
      }
      var safety;
      safety, changed := SwapIn(pending.value, at, fault, stuck);
      pending := None;
      if recorded {
        record := Some(Record(if changed then Applied else RolledBack, safety));
      }
      return changed, changed ==> recorded;
    }

    method ConfirmStartup(recorded: bool)
      modifies this`record
      ensures Contents() == Confirmed(old(Contents()), recorded)
    {
      if record.None? || record.value.phase != Applied {
        return;
      }
      if recorded {
        record := Some(record.value.(phase := Completed));
      }
    }
  }

  /** A start with a pending restore replaces the live files. */
  predicate Swaps(d: Disk, at: SafetyName, fault: Fault, stuck: Stuck) {
    !InPhase(d, Applied) && d.pending.Some? && !fault.Unreadable? && SwapOf(d, d.pending.value, at, fault, stuck).ok
  }

  // ---------- runs ----------

  datatype Event =
    | Upload(bundle: Bundle, expires: int, dropped: set<Token>)
    | Schedule(token: Token, now: int, failure: StageFault)
    | Start(at: SafetyName, fault: Fault, stuck: Stuck, recorded: bool)
    | Confirm(written: bool)
    | Serve(live: Pair)

  predicate Step(d: Disk, e: Event, d': Disk) {
    match e
    case Upload(b, expires, dropped) => b.token !in d.issued && d' == Uploaded(d, b, expires, dropped)
    case Schedule(token, now, fault) => d' == Staged(d, token, now, fault)
    case Start(at, fault, stuck, recorded) => d' == Started(d, at, fault, stuck, recorded)
    case Confirm(recorded) => d' == Confirmed(d, recorded)
    case Serve(live) => d' == d.(live := live)
  }

  ghost predicate Run(ds: seq<Disk>, es: seq<Event>) {
    && |ds| == |es| + 1
    && ds[0].pending.None? && ds[0].record.None? && ds[0].stages == map[] && ds[0].issued == {}
    && forall i :: 0 <= i < |es| ==> Step(ds[i], es[i], ds[i + 1])
  }

  /** A pending bundle is recorded as such; tokens in use were issued, and each is in one
      place. */
  predicate Tidy(d: Disk) {
    && (d.pending.Some? ==> InPhase(d, Pending) && d.pending.value.token in d.issued && d.pending.value.token !in d.stages)
    && (forall t :: t in d.stages ==> t in d.issued && d.stages[t].bundle.token == t)
    && (InPhase(d, Applied) ==> d.record.value.safety.Some? && d.record.value.safety.value in d.safeties)
  }

  lemma StepKeepsTidy(d: Disk, e: Event, d': Disk)
    requires Tidy(d) && Step(d, e, d')
    ensures Tidy(d') && d.issued <= d'.issued
  {
    match e
    case Start(at, fault, stuck, recorded) => StartKeepsTidy(d, at, fault, stuck, recorded);
    case Schedule(token, now, fault) => StageKeepsTidy(d, token, now, fault);
    case _ =>
  }

  lemma StartKeepsTidy(d: Disk, at: SafetyName, fault: Fault, stuck: Stuck, recorded: bool)
    requires Tidy(d)
    ensures Tidy(Started(d, at, fault, stuck, recorded)) && Started(d, at, fault, stuck, recorded).issued == d.issued
  {
  }

  lemma StageKeepsTidy(d: Disk, token: Token, now: int, fault: StageFault)
    requires Tidy(d)
    ensures Tidy(Staged(d, token, now, fault)) && Staged(d, token, now, fault).issued == d.issued
  {
  }

  lemma {:induction false} AlwaysTidy(ds: seq<Disk>, es: seq<Event>, i: nat)
    requires Run(ds, es) && i < |ds|
    ensures Tidy(ds[i])
  {
    if i > 0 {
      AlwaysTidy(ds, es, i - 1);
      StepKeepsTidy(ds[i - 1], es[i - 1], ds[i]);
    }
  }

  // ---------- a restore is applied ----------

  /** This start replaces the live files by a pending bundle, and puts that on record. */
  predicate Applies(d: Disk, e: Event) {
    e.Start? && Swaps(d, e.at, e.fault, e.stuck) && e.recorded
  }

  /** Events that end the wait for confirmation: a start or a confirmation that could be
      recorded, a new staging. */
  predicate Settles(d: Disk, e: Event) {
    || (e.Start? && e.recorded) || (e.Confirm? && e.written)
    || (e.Schedule? && Stageable(d, e.token, e.now, e.failure))
  }

  /** Since the start at `j`, which applied a restore, nothing has settled it. */
  ghost predicate Waiting(ds: seq<Disk>, es: seq<Event>, j: nat, i: nat)
    requires |ds| == |es| + 1
  {
    && j < i <= |es| && Applies(ds[j], es[j])
    && forall k :: j < k < i ==> !Settles(ds[k], es[k])
  }

  /** What a start leaves when it applies a restore. */
  lemma AppliesMeans(d: Disk, e: Event, d': Disk)
    requires Step(d, e, d') && Applies(d, e)
    ensures d'.live == Pair(Some(d.pending.value.db), Some(d.pending.value.config)) && d'.pending.None?
    ensures d'.record == Some(Record(Applied, Some(e.at))) && e.at in d'.safeties && d'.safeties[e.at] == d.live
  {
  }

  /** Other steps neither enter the applied phase nor touch the safety copy. */
  lemma QuietStep(d: Disk, e: Event, d': Disk)
    requires Step(d, e, d') && !Applies(d, e)
    ensures InPhase(d', Applied) <==> InPhase(d, Applied) && !Settles(d, e)
    ensures InPhase(d', Applied) ==> d'.record == d.record && d'.safeties == d.safeties
  {
  }

  lemma AppliedBlocksApplying(d: Disk, e: Event)
    requires InPhase(d, Applied)
    ensures !Applies(d, e)
  {
  }

  /** While a restore waits for confirmation, its record names a safety copy that is
      exactly the pair of files that was live before it was applied. */
  lemma {:induction false} WaitingKeepsSafety(ds: seq<Disk>, es: seq<Event>, j: nat, i: nat)
    requires Run(ds, es) && Waiting(ds, es, j, i)
    ensures ds[i].record == Some(Record(Applied, Some(es[j].at)))
    ensures es[j].at in ds[i].safeties && ds[i].safeties[es[j].at] == ds[j].live
    decreases i
  {
    assert Step(ds[i - 1], es[i - 1], ds[i]);
    if i == j + 1 {
      AppliesMeans(ds[j], es[j], ds[i]);
    } else {
      WaitingKeepsSafety(ds, es, j, i - 1);
      AppliedBlocksApplying(ds[i - 1], es[i - 1]);
      QuietStep(ds[i - 1], es[i - 1], ds[i]);
    }
  }

  /** In every run the record says "applied" exactly while a restore waits. */
  lemma {:induction false} AppliedIsWaiting(ds: seq<Disk>, es: seq<Event>, i: nat)
    requires Run(ds, es) && i <= |es|
    ensures InPhase(ds[i], Applied) <==> exists j: nat :: Waiting(ds, es, j, i)
  {
    if i > 0 {
      AppliedIsWaiting(ds, es, i - 1);
      assert Step(ds[i - 1], es[i - 1], ds[i]);
      if Applies(ds[i - 1], es[i - 1]) {
        AppliesMeans(ds[i - 1], es[i - 1], ds[i]);
        assert Waiting(ds, es, i - 1, i);
      } else {
        QuietStep(ds[i - 1], es[i - 1], ds[i]);
        if InPhase(ds[i], Applied) {
          var j: nat :| Waiting(ds, es, j, i - 1);
          assert Waiting(ds, es, j, i);
        } else {
          forall j: nat | j < i - 1 ensures !Waiting(ds, es, j, i) {
            assert InPhase(ds[i - 1], Applied) ==> Settles(ds[i - 1], es[i - 1]);
            assert !Waiting(ds, es, j, i - 1) || Settles(ds[i - 1], es[i - 1]);
          }
        }
      }
    }
  }

  /** "Applied" means that the safety copy is the pair live before the swap. */
  lemma AppliedHasSafety(ds: seq<Disk>, es: seq<Event>, i: nat)
    requires Run(ds, es) && i <= |es| && InPhase(ds[i], Applied)
    ensures exists j: nat :: Waiting(ds, es, j, i)
              && ds[i].record.value.safety == Some(es[j].at)
              && es[j].at in ds[i].safeties && ds[i].safeties[es[j].at] == ds[j].live
  {
    AppliedIsWaiting(ds, es, i);
    var j: nat :| Waiting(ds, es, j, i);
    WaitingKeepsSafety(ds, es, j, i);
  }

  // ---------- and rolled back, or not ----------

  /** This start replaced the live files, whether or not it could record that. */
  predicate SwapsAt(d: Disk, e: Event) { e.Start? && Swaps(d, e.at, e.fault, e.stuck) }

  /** The next start after one that swapped in a restore rolls it back exactly when the
      swap is on record and neither a confirmation nor a new staging came between. */
  lemma RollsBackUnlessSettled(ds: seq<Disk>, es: seq<Event>, j: nat, i: nat)
    requires Run(ds, es) && j < i < |es| && SwapsAt(ds[j], es[j]) && es[i].Start?
    requires forall k :: j < k < i ==> !es[k].Start?
    ensures InPhase(ds[i], Applied) <==> es[j].recorded && forall k :: j < k < i ==> !Settles(ds[k], es[k])
    ensures InPhase(ds[i], Applied) ==> ds[i + 1].live == PutBack(ds[i].live, ds[j].live, es[i].stuck)
    ensures InPhase(ds[i], Applied) && es[i].recorded ==> InPhase(ds[i + 1], if PutBackFails(ds[j].live, es[i].stuck) then Failed else RolledBack)
    ensures InPhase(ds[i], Applied) ==> (ds[i + 1].live == ds[j].live <==> ComesBack(ds[i].live, ds[j].live, es[i].stuck))
  {
    assert Step(ds[i], es[i], ds[i + 1]);
    AppliedIsWaiting(ds, es, i);
    if Waiting(ds, es, j, i) {
      WaitingKeepsSafety(ds, es, j, i);
      RollbackIsExact(ds[i].live, ds[j].live, es[i].stuck);
    } else {
      NoOtherWaits(ds, es, j, i);
    }
  }

  /** Only the last start to swap can be the one that waits. */
  lemma NoOtherWaits(ds: seq<Disk>, es: seq<Event>, j: nat, i: nat)
    requires Run(ds, es) && j < i <= |es| && SwapsAt(ds[j], es[j]) && (forall k :: j < k < i ==> !es[k].Start?)
    ensures forall l: nat :: Waiting(ds, es, l, i) ==> l == j
  {
    forall l: nat | Waiting(ds, es, l, i)
      ensures l == j
    {
      if l < j {
        assert Waiting(ds, es, l, j);
        WaitingKeepsSafety(ds, es, l, j);
      }
    }
  }

  /** The file is the same anyway, or there was one to copy and it can be put back. */
  predicate FileComesBack(live: Option<Content>, before: Option<Content>, stuck: bool) {
    live == before || (before.Some? && !stuck)
  }

  predicate ComesBack(live: Pair, before: Pair, stuck: Stuck) {
    FileComesBack(live.db, before.db, stuck.db) && FileComesBack(live.config, before.config, stuck.config)
  }

  /** Which rollbacks bring back what was there; a file that was missing stays in its
      restored form. */
  lemma RollbackIsExact(live: Pair, before: Pair, stuck: Stuck)
    ensures PutBack(live, before, stuck) == before <==> ComesBack(live, before, stuck)
  {
  }

  /** No backup is staged successfully at or after `start` and before `until`. */
  ghost predicate NothingStaged(ds: seq<Disk>, es: seq<Event>, start: nat, until: nat)
    requires |ds| == |es| + 1 && until <= |es|
  {
    forall l :: start <= l < until && es[l].Schedule? ==> !Stageable(ds[l], es[l].token, es[l].now, es[l].failure)
  }

  /** Once confirmed, a restore is never rolled back: starts change nothing until
      another backup is staged. */
  lemma {:induction false} ConfirmedStays(ds: seq<Disk>, es: seq<Event>, i: nat, k: nat)
    requires Run(ds, es) && i <= k < |es| && InPhase(ds[i], Completed)
    requires NothingStaged(ds, es, i, k)
    ensures InPhase(ds[k], Completed) && ds[k].record == ds[i].record
    ensures es[k].Start? ==> ds[k + 1] == ds[k]
  {
    assert Step(ds[k], es[k], ds[k + 1]);
    AlwaysTidy(ds, es, k);
    if i < k {
      ConfirmedStays(ds, es, i, k - 1);
      assert Step(ds[k - 1], es[k - 1], ds[k]);
      AlwaysTidy(ds, es, k - 1);
    }
  }

  // ---------- at most once ----------

  predicate UsedUp(d: Disk, token: Token) {
    token in d.issued && token !in d.stages && !(d.pending.Some? && d.pending.value.token == token)
  }

  lemma {:induction false} StaysUsedUp(ds: seq<Disk>, es: seq<Event>, token: Token, i: nat, k: nat)
    requires Run(ds, es) && i <= k < |ds| && UsedUp(ds[i], token)
    ensures UsedUp(ds[k], token)
  {
    if i < k {
      StaysUsedUp(ds, es, token, i, k - 1);
      AlwaysTidy(ds, es, k - 1);
      assert Step(ds[k - 1], es[k - 1], ds[k]);
    }
  }

  /** Each staged bundle is applied at most once. */
  lemma AppliedOnce(ds: seq<Disk>, es: seq<Event>, i: nat, k: nat)
    requires Run(ds, es) && i < k < |es| && SwapsAt(ds[i], es[i]) && SwapsAt(ds[k], es[k])
    ensures ds[i].pending.value.token != ds[k].pending.value.token
  {
    AlwaysTidy(ds, es, i);
    assert Step(ds[i], es[i], ds[i + 1]);
    assert ds[i + 1].pending.None? && ds[i + 1].stages == ds[i].stages && ds[i + 1].issued == ds[i].issued;
    StaysUsedUp(ds, es, ds[i].pending.value.token, i + 1, k);
  }

  /** A restore whose record could not be written is never rolled back nor confirmed: no
      later start changes anything until another backup is staged. */
  lemma {:induction false} UnrecordedStays(ds: seq<Disk>, es: seq<Event>, j: nat, i: nat)
    requires Run(ds, es) && j < i < |es| && SwapsAt(ds[j], es[j]) && !es[j].recorded && NothingStaged(ds, es, j + 1, i)
    ensures ds[j + 1].live == Pair(Some(ds[j].pending.value.db), Some(ds[j].pending.value.config))
    ensures ds[i].pending.None? && InPhase(ds[i], Pending) && ds[i].record == ds[j].record
    ensures es[i].Start? || es[i].Confirm? ==> ds[i + 1] == ds[i]
  {
    assert Step(ds[i - 1], es[i - 1], ds[i]) && Step(ds[i], es[i], ds[i + 1]);
    AlwaysTidy(ds, es, j);
    if i > j + 1 {
      UnrecordedStays(ds, es, j, i - 1);
    }
  }

  /** How far a start that does not apply its restore got with a file. */
  predicate Touched(d: Disk, at: SafetyName, fault: Fault, config: bool) {
    !fault.Unreadable? && at !in d.safeties && (fault.Check? || (fault.RenameConfig? && !config))
  }

  /** A start that fails to apply its restore leaves a file as it was exactly if it did
      not get to it, or could put it back, or both are the same. */
  lemma FailedSwapKeepsLive(d: Disk, at: SafetyName, fault: Fault, stuck: Stuck, recorded: bool)
    requires d.pending.Some? && !InPhase(d, Applied) && !Swaps(d, at, fault, stuck)
    ensures var live, b := Started(d, at, fault, stuck, recorded).live, d.pending.value;
            && (live.db == d.live.db <==> !Touched(d, at, fault, false) || (d.live.db.Some? && !stuck.db) || d.live.db == Some(b.db))
            && (live.config == d.live.config <==> !Touched(d, at, fault, true) || (d.live.config.Some? && !stuck.config) || d.live.config == Some(b.config))
  {
  }

  // ---------- what is applied is what was uploaded ----------

  predicate StagesNow(d: Disk, e: Event) { e.Schedule? && Stageable(d, e.token, e.now, e.failure) }

  /** Staging touches neither the live files nor the safety copies. Success needs an
      upload that is not too old and whose files are still there, makes it pending and uses
      it up; a failure leaves nothing pending that was not. */
  lemma StagingIsSafe(d: Disk, token: Token, now: int, fault: StageFault)
    ensures var d' := Staged(d, token, now, fault);
            && d'.live == d.live && d'.safeties == d.safeties && d'.issued == d.issued
            && (Stageable(d, token, now, fault) ==>
                  && token in d.stages && now <= d.stages[token].expires && d.stages[token].files
                  && d'.pending == Some(d.stages[token].bundle) && d'.record == Some(Record(Pending, None)) && d'.stages == d.stages - {token})
            && (!Stageable(d, token, now, fault) ==> d'.record == d.record && (d'.pending == d.pending || d'.pending.None?))
            && (token in d.stages && now <= d.stages[token].expires && d.stages[token].files && fault == StageWorks ==> Stageable(d, token, now, fault))
  {
  }

  lemma StagesStep(d: Disk, e: Event, d': Disk, t: Token)
    requires Step(d, e, d') && t in d'.stages
    ensures || (e.Upload? && e.bundle.token == t && d'.stages[t].bundle == e.bundle && d'.stages[t].expires == e.expires)
            || (t in d.stages && d'.stages[t].bundle == d.stages[t].bundle && d'.stages[t].expires == d.stages[t].expires)
  {
  }

  lemma PendingStep(d: Disk, e: Event, d': Disk)
    requires Step(d, e, d') && d'.pending.Some?
    ensures if StagesNow(d, e) then d'.pending == Some(d.stages[e.token].bundle) else d'.pending == d.pending
  {
  }

  /** The upload that an inspected bundle came with. */
  lemma {:induction false} UploadOf(ds: seq<Disk>, es: seq<Event>, i: nat, t: Token) returns (u: nat)
    requires Run(ds, es) && i <= |es| && t in ds[i].stages
    ensures u < i && es[u].Upload? && es[u].bundle.token == t
    ensures es[u].bundle == ds[i].stages[t].bundle && es[u].expires == ds[i].stages[t].expires
  {
    assert i > 0;
    assert Step(ds[i - 1], es[i - 1], ds[i]);
    StagesStep(ds[i - 1], es[i - 1], ds[i], t);
    if es[i - 1].Upload? && es[i - 1].bundle.token == t && ds[i].stages[t].bundle == es[i - 1].bundle && ds[i].stages[t].expires == es[i - 1].expires {
      u := i - 1;
    } else {
      u := UploadOf(ds, es, i - 1, t);
    }
  }

  /** The staging that made a bundle pending: the last one that succeeded. */
  lemma {:induction false} StagingOf(ds: seq<Disk>, es: seq<Event>, i: nat) returns (s: nat)
    requires Run(ds, es) && i <= |es| && ds[i].pending.Some?
    ensures s < i && StagesNow(ds[s], es[s]) && ds[i].pending == Some(ds[s].stages[es[s].token].bundle)
    ensures forall l :: s < l < i ==> !StagesNow(ds[l], es[l])
  {
    assert i > 0;
    assert Step(ds[i - 1], es[i - 1], ds[i]);
    PendingStep(ds[i - 1], es[i - 1], ds[i]);
    if StagesNow(ds[i - 1], es[i - 1]) {
      s := i - 1;
    } else {
      s := StagingOf(ds, es, i - 1);
    }
  }

  /** In every run, what a start swaps in is the upload that was staged last, before it
      expired. */
  lemma AppliedIsUploaded(ds: seq<Disk>, es: seq<Event>, j: nat) returns (u: nat, s: nat)
    requires Run(ds, es) && j < |es| && SwapsAt(ds[j], es[j])
    ensures u < s < j && es[u].Upload? && StagesNow(ds[s], es[s]) && es[s].token == es[u].bundle.token && es[s].now <= es[u].expires
    ensures ds[j + 1].live == Pair(Some(es[u].bundle.db), Some(es[u].bundle.config))
    ensures forall l :: s < l < j ==> !StagesNow(ds[l], es[l])
  {
    s := StagingOf(ds, es, j);
    u := UploadOf(ds, es, s, es[s].token);
    assert Step(ds[j], es[j], ds[j + 1]);
  }

  /** Confirming a restore that waits completes it and changes nothing else. */
  lemma ConfirmationCompletes(ds: seq<Disk>, es: seq<Event>, j: nat, i: nat)
    requires Run(ds, es) && Waiting(ds, es, j, i) && i < |es| && es[i] == Confirm(true)
    ensures ds[i + 1] == ds[i].(record := Some(Record(Completed, Some(es[j].at))))
  {
    WaitingKeepsSafety(ds, es, j, i);
    assert Step(ds[i], es[i], ds[i + 1]);
  }

  /** The safety copy a start takes before it replaces anything: of both files, or of as
      much as it got to. */
  predicate CopyTaken(d: Disk, at: SafetyName, fault: Fault, copy: Pair) {
    && (copy.db == d.live.db || (fault == CopyDb && copy.db == None))
    && (copy.config == d.live.config || ((fault == CopyDb || fault == CopyConfig) && copy.config == None))
  }

  /** A start that finds an unconfirmed restore leaves everything but live files and record
      alone, and puts on record, if it can, that it rolled back or failed to. */
  lemma RollbackStartMeans(d: Disk, at: SafetyName, fault: Fault, stuck: Stuck, recorded: bool)
    requires InPhase(d, Applied)
    ensures var d' := Started(d, at, fault, stuck, recorded);
            && d' == d.(live := d'.live, record := d'.record) && d'.record.Some?
            && (!recorded ==> d'.record == d.record)
            && d'.record.value.safety == d.record.value.safety
            && (recorded ==> d'.record.value.phase == RolledBack || d'.record.value.phase == Failed)
  {
  }

  /** When the swap works: nothing stands under the name of the safety copy, and no fault
      matters. */
  predicate NoFault(d: Disk, at: SafetyName, fault: Fault) {
    at !in d.safeties && (fault == Never || (fault == CopyDb && d.live.db == None) || (fault == CopyConfig && d.live.config == None))
  }

  lemma SwapsMeans(d: Disk, at: SafetyName, fault: Fault, stuck: Stuck)
    ensures Swaps(d, at, fault, stuck) <==> !InPhase(d, Applied) && d.pending.Some? && NoFault(d, at, fault)
  {
  }

  /** Any other start leaves nothing pending. With a readable bundle it puts the outcome on
      record, if it can, with the name of the safety copy if it got that far. */
  lemma ApplyStartMeans(d: Disk, at: SafetyName, fault: Fault, stuck: Stuck, recorded: bool)
    requires !InPhase(d, Applied)
    ensures var d' := Started(d, at, fault, stuck, recorded);
            && d'.pending.None? && d'.stages == d.stages && d'.issued == d.issued
            && (d.pending.None? ==> d' == d)
            && (d.pending.Some? && fault == Unreadable ==> d' == d.(pending := None))
            && (!recorded ==> d'.record == d.record)
            && (d.pending.Some? && fault != Unreadable && recorded ==>
                  d'.record == Some(Record(if NoFault(d, at, fault) then Applied else RolledBack, if at in d.safeties || fault == BeforeSafety then None else Some(at))))
  {
  }

  /** The safety copy is kept under its name, beside the others. */
  lemma SafetyIsTaken(d: Disk, at: SafetyName, fault: Fault, stuck: Stuck, recorded: bool)
    requires !InPhase(d, Applied) && d.pending.Some? && fault != Unreadable && fault != BeforeSafety && at !in d.safeties
    ensures var d' := Started(d, at, fault, stuck, recorded);
            at in d'.safeties && d'.safeties == d.safeties[at := d'.safeties[at]] && CopyTaken(d, at, fault, d'.safeties[at])
  {
  }
}
