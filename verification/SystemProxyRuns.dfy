/**
Whole runs of the system-proxy takeover: sessions that start, crash and recover, with
faults between any two writes.
*/
module SystemProxyRuns {
  import opened Links
  import opened SystemProxy

  // The machine, the app's own state (lost when it dies), and for the statements what the
  // user had set up last.
  datatype Session<P> = Session(world: World<P>, open: bool, running: bool, applied: bool, user: Registry)

  // `k` is how many writes get through before one fails, or before the app dies.
  datatype Event<P> =
    | Launch(k: nat, dies: bool)
    | Start(rest: P, kept: bool, address: Option<string>, k: nat, dies: bool)
    | Stop(k: nat, dies: bool)
    | Prefer(rest: P, kept: bool)
    | Die
    | UserEdit(registry: Registry)

  function Enabled<P>(w: World<P>, address: string, k: nat): World<P> {
    ApplyAll(w, Upto(EnableWrites(w, address), k))
  }

  function Disabled<P>(w: World<P>, k: nat): World<P> {
    ApplyAll(w, Upto(DisableWrites(w), k))
  }

  function Preferred<P>(w: World<P>, rest: P, kept: bool): World<P> {
    if kept then w.(settings := w.settings.(rest := rest)) else w
  }

  function Dead<P>(s: Session<P>): Session<P> {
    s.(open := false, running := false, applied := false)
  }

  function Step<P>(s: Session<P>, e: Event<P>): Session<P> {
    match e
    case Launch(k, dies) =>
      var w := if s.world.settings.active then Disabled(s.world, k) else s.world;
      var t := s.(world := w, open := true, running := false, applied := false);
      if dies then Dead(t) else t
    case Start(rest, kept, address, k, dies) =>
      var w := Preferred(s.world, rest, kept);
      var t := match address
        case None => s.(world := w, running := true)
        case Some(a) => s.(world := Enabled(w, a, k), running := true, applied := s.applied || k >= 4);
      if dies then Dead(t) else t
    case Stop(k, dies) =>
      var w := if s.applied || s.world.settings.active then Disabled(s.world, k) else s.world;
      var t := s.(world := w, running := false, applied := false);
      if dies then Dead(t) else t
    case Prefer(rest, kept) => s.(world := Preferred(s.world, rest, kept))
    case Die => Dead(s)
    case UserEdit(registry) => s.(world := s.world.(registry := registry), user := registry)
  }

  // The app's own guards, one proxy at a time; and nobody else edits the keys while we
  // hold them.
  predicate Legal<P>(s: Session<P>, e: Event<P>) {
    match e
    case Launch(_, _) => !s.open
    case Start(_, _, _, _, _) => s.open && !s.running
    case Stop(_, _) => s.open
    case Prefer(_, _) => s.open
    case Die => true
    case UserEdit(registry) => !s.world.settings.active && Restorable(registry)
  }

  // A restore that does not finish is one the app did not survive.
  predicate OnlyDeathInterrupts<P>(e: Event<P>) {
    (e.Launch? || e.Stop?) ==> e.k >= 4 || e.dies
  }

  // No takeover on top of a takeover that is still recorded.
  predicate FreshTakeover<P>(s: Session<P>, e: Event<P>) {
    e.Start? && e.address.Some? ==> !s.world.settings.active
  }

  predicate Protected<P(==)>(s: Session<P>) {
    && Safe(s.world, s.user) && Restorable(s.user)
    && (s.applied ==> s.world.settings.active)
  }

  // While the app is open and its listener is not, the system is not pointed at it.
  predicate Settled<P>(s: Session<P>) {
    s.open && !s.running ==> !s.world.settings.active
  }

  lemma TakeoverKeeps<P>(w: World<P>, user: Registry, address: string, k: nat)
    requires !w.settings.active && Safe(w, user)
    ensures Safe(Enabled(w, address, k), user)
    ensures k >= 1 ==> Enabled(w, address, k).settings.active
  {
    EnableIsSafe(w, user, address, k);
  }

  lemma GivingBackKeeps<P>(w: World<P>, user: Registry, k: nat)
    requires w.settings.active && Safe(w, user) && Restorable(user)
    ensures Safe(Disabled(w, k), user)
    ensures Disabled(w, k).settings.active <==> k < 4
    ensures k >= 4 ==>
              var r := Disabled(w, k).registry;
              InEffect(r, user) && r.enable == Some(if user.enable.Some? then user.enable.value else 0)
  {
    DisableIsSafe(w, user, k);
  }

  /** Every single operation, stopped anywhere, keeps the user's configuration in effect or
      recorded, as long as it does not take over on top of a recorded takeover. */
  lemma StepStaysProtected<P>(s: Session<P>, e: Event<P>)
    requires Protected(s) && Legal(s, e) && FreshTakeover(s, e)
    ensures Protected(Step(s, e))
  {
    hide Enabled, Disabled, Read;
    match e
    case Launch(k, _) => if s.world.settings.active { GivingBackKeeps(s.world, s.user, k); }
    case Start(rest, kept, address, k, _) =>
      if address.Some? { TakeoverKeeps(Preferred(s.world, rest, kept), s.user, address.value, k); }
    case Stop(k, _) => if s.world.settings.active { GivingBackKeeps(s.world, s.user, k); }
    case _ =>
  }

  /** When only the death of the app interrupts a restore, no takeover ever finds an
      earlier one still recorded: the guard need not be assumed. */
  lemma StepStaysSettled<P>(s: Session<P>, e: Event<P>)
    requires Protected(s) && Settled(s) && Legal(s, e) && OnlyDeathInterrupts(e)
    ensures FreshTakeover(s, e) && Settled(Step(s, e))
  {
    hide Enabled, Disabled, Read;
    match e
    case Launch(k, _) => if s.world.settings.active { GivingBackKeeps(s.world, s.user, k); }
    case Stop(k, _) => if s.world.settings.active { GivingBackKeeps(s.world, s.user, k); }
    case _ =>
  }

  // ----- runs

  function Run<P>(s: Session<P>, es: seq<Event<P>>): Session<P> {
    if es == [] then s else Step(Run(s, es[..|es| - 1]), es[|es| - 1])
  }

  predicate LegalRun<P>(s: Session<P>, es: seq<Event<P>>) {
    es == [] || (LegalRun(s, es[..|es| - 1]) && Legal(Run(s, es[..|es| - 1]), es[|es| - 1]))
  }

  predicate FreshTakeovers<P>(s: Session<P>, es: seq<Event<P>>) {
    es == [] || (FreshTakeovers(s, es[..|es| - 1]) && FreshTakeover(Run(s, es[..|es| - 1]), es[|es| - 1]))
  }

  /** Crash safety: over every run, with the app dying or a write failing between any two
      writes of any operation, and no takeover on top of a failed restore. */
  lemma {:induction false} RunStaysProtected<P>(s: Session<P>, es: seq<Event<P>>)
    requires Protected(s) && LegalRun(s, es) && FreshTakeovers(s, es)
    ensures Protected(Run(s, es))
  {
    hide Step, Protected;
    if es != [] {
      RunStaysProtected(s, es[..|es| - 1]);
      StepStaysProtected(Run(s, es[..|es| - 1]), es[|es| - 1]);
    }
  }

  /** Crash safety without that proviso: if restores are only ever interrupted by the app's
      death, takeovers are always fresh, and whenever the app is open without a listener
      the user's settings are in effect and the system uses the proxy they name, if any. */
  lemma {:induction false} CrashesAloneAreSafe<P>(s: Session<P>, es: seq<Event<P>>)
    requires Protected(s) && Settled(s) && LegalRun(s, es)
    requires forall e :: e in es ==> OnlyDeathInterrupts(e)
    ensures FreshTakeovers(s, es) && Protected(Run(s, es)) && Settled(Run(s, es))
    ensures var t := Run(s, es);
            t.open && !t.running ==>
              && InEffect(t.world.registry, t.user)
              && forall address :: PointsAt(t.world.registry, address) <==> PointsAt(t.user, address)
  {
    hide Step, Legal, OnlyDeathInterrupts, InEffect, Read, PointsAt;
    if es != [] {
      var front, last := es[..|es| - 1], es[|es| - 1];
      CrashesAloneAreSafe(s, front);
      assert last in es;
      StepStaysSettled(Run(s, front), last);
      StepStaysProtected(Run(s, front), last);
    }
    var t := Run(s, es);
    if t.open && !t.running {
      InEffectPointsAsBefore(t.world.registry, t.user);
    }
  }

  /** Recovery: whatever happened before, any number of interrupted recoveries included,
      a launch that carries its restore through leaves the user's settings in the registry,
      the system using the proxy it used under them, and no record of a takeover. If there
      was one, the enable value is the user's own, or zero if the user had none. */
  lemma RecoveryRestores<P>(s: Session<P>, es: seq<Event<P>>, k: nat)
    requires Protected(s) && LegalRun(s, es) && FreshTakeovers(s, es)
    requires k >= 4 && !Run(s, es).open
    ensures var user, t := Run(s, es).user, Step(Run(s, es), Launch(k, false));
            && t.user == user && !t.world.settings.active && Settled(t)
            && t.world.registry.server == user.server && t.world.registry.override == user.override
            && InEffect(t.world.registry, user)
            && (Run(s, es).world.settings.active ==>
                  t.world.registry.enable == Some(if user.enable.Some? then user.enable.value else 0))
            && forall address :: PointsAt(t.world.registry, address) <==> PointsAt(user, address)
  {
    hide Run, LegalRun, FreshTakeovers, Enabled, Disabled, Read, PointsAt;
    RunStaysProtected(s, es);
    var t := Run(s, es);
    if t.world.settings.active {
      GivingBackKeeps(t.world, t.user, k);
    }
    InEffectPointsAsBefore(Step(t, Launch(k, false)).world.registry, t.user);
  }

  // ----- the exception

  /** A takeover on top of a recorded one keeps the user's configuration safe exactly when
      the registry holds what the user set up, a missing enable value counting as zero:
      otherwise the record of it is overwritten. */
  lemma SecondTakeoverIff<P>(s: Session<P>, rest: P, kept: bool, address: string, k: nat)
    requires Protected(s) && Legal(s, Start(rest, kept, Some(address), k, false)) && s.world.settings.active
    requires k >= 1
    ensures var r, user := s.world.registry, s.user;
            Protected(Step(s, Start(rest, kept, Some(address), k, false))) <==>
              && r.server == user.server && r.override == user.override
              && (r.enable == user.enable || (r.enable == None && user.enable == Some(0))
                                          || (r.enable == Some(0) && user.enable == None))
  {
    hide EnableWrites;
    EnableRecords(Preferred(s.world, rest, kept), address, k);
  }

  // It does happen: a restore whose first write fails, and then another start.
  lemma SecondTakeoverLosesOriginal<P>(s: Session<P>, rest: P, address: string)
    requires Protected(s) && s.open && !s.running && !s.world.settings.active
    requires s.user.server != Some(address)
    ensures var start := Start(rest, true, Some(address), 4, false);
            var es := [start, Stop(0, false), start];
            && LegalRun(s, es) && Run(s, es).world.settings.active
            && Run(s, es).world.settings.saved.server == address
            && !Protected(Run(s, es))
  {
    var first: Event<P> := Start(rest, true, Some(address), 4, false);
    var stop: Event<P> := Stop(0, false);
    var es := [first, stop, first];
    var a := Step(s, first);
    var b := Step(a, stop);
    RunsOfThree(s, first, stop, first);
    TakenOver(Preferred(s.world, rest, true), address);
    TakenOver(Preferred(b.world, rest, true), address);
  }

  lemma RunsOfThree<P>(s: Session<P>, a: Event<P>, b: Event<P>, c: Event<P>)
    ensures Run(s, [a, b, c]) == Step(Step(Step(s, a), b), c)
    ensures LegalRun(s, [a, b, c]) <==> Legal(s, a) && Legal(Step(s, a), b) && Legal(Step(Step(s, a), b), c)
  {
    assert [a, b, c][..2] == [a, b] && [a, b][..1] == [a] && [a][..0] == [];
    assert Run(s, [a]) == Step(s, a);
    assert Run(s, [a, b]) == Step(Step(s, a), b);
    assert LegalRun(s, [a]) == Legal(s, a);
    assert LegalRun(s, [a, b]) == (Legal(s, a) && Legal(Step(s, a), b));
  }

  // A takeover carried through.
  lemma TakenOver<P>(w: World<P>, address: string)
    ensures var t := Enabled(w, address, 4);
            && t.registry == Registry(Some(1), Some(address), Some(DEFAULT_BYPASS))
            && t.settings == w.settings.(saved := Read(w.registry), active := true)
  {
    var ws := EnableWrites(w, address);
    ApplyThree(w, ws[0], ws[1], ws[2]);
    ApplyOneMore(w, [ws[0], ws[1], ws[2]], ws[3]);
    assert Upto(ws, 4) == [ws[0], ws[1], ws[2]] + [ws[3]];
  }

  // ----- what a takeover and a restore pass through

  // What it leaves on disk.
  lemma TakeoverRecords<P>(w: World<P>, address: string, k: nat)
    ensures Enabled(w, address, k).settings ==
            if k == 0 then w.settings else w.settings.(saved := Read(w.registry), active := true)
  {
    EnableRecords(w, address, k);
  }

  // The registry after each number of writes of a takeover; the first is the record.
  lemma TakeoverStates<P>(w: World<P>, address: string, k: nat)
    ensures var r, t := w.registry, Enabled(w, address, k).registry;
            && t.server == (if k <= 1 then r.server else Some(address))
            && t.override == (if k <= 2 then r.override else Some(DEFAULT_BYPASS))
            && t.enable == (if k <= 3 then r.enable else Some(1))
  {
    hide Read;
    var ws := EnableWrites(w, address);
    ApplyThree(w, ws[0], ws[1], ws[2]);
    if k == 0 {
      assert Upto(ws, k) == [];
    } else if k == 1 {
      assert Upto(ws, k) == [ws[0]];
    } else if k == 2 {
      assert Upto(ws, k) == [ws[0], ws[1]];
    } else if k == 3 {
      assert Upto(ws, k) == [ws[0], ws[1], ws[2]];
    } else {
      ApplyOneMore(w, [ws[0], ws[1], ws[2]], ws[3]);
      assert Upto(ws, k) == [ws[0], ws[1], ws[2]] + [ws[3]];
    }
  }

  /** A takeover stopped anywhere: carried through, the system points at our address; before
      that only if it was pointed there already, or some proxy was on and the address had
      been written. */
  lemma TakeoverPointsAtIff<P>(w: World<P>, address: string, k: nat)
    ensures PointsAt(Enabled(w, address, k).registry, address) <==>
            || k >= 4
            || (k >= 2 && w.registry.enable.Some? && w.registry.enable.value != 0)
            || PointsAt(w.registry, address)
  {
    hide Enabled;
    TakeoverStates(w, address, k);
  }

  // Whether a restore that gets k writes through leaves the system pointing at the address.
  predicate StillPointsAt<P>(w: World<P>, address: string, k: nat) {
    var saved := w.settings.saved;
    if k == 0 then PointsAt(w.registry, address)
    else if saved.enable % DWORD_MODULUS == 0 then false
    else if k == 1 then w.registry.server == Some(address)
    else saved.hadServer && saved.server == address
  }

  /** What a restore stopped anywhere leaves: nothing is disabled before the first write; the
      first write disables only if the saved enable value, cut to 32 bits, is zero; from
      the second on the system points at our address only if the user's own settings did. */
  lemma RestorePointsAtIff<P>(w: World<P>, address: string, k: nat)
    ensures PointsAt(Disabled(w, k).registry, address) <==> StillPointsAt(w, address, k)
  {
    RestoreStates(w, k);
  }

  // The registry after each number of restoring writes.
  lemma RestoreStates<P>(w: World<P>, k: nat)
    ensures var r, saved, t := w.registry, w.settings.saved, Disabled(w, k).registry;
            && t.enable == (if k == 0 then r.enable else Some(saved.enable % DWORD_MODULUS))
            && t.server == (if k <= 1 then r.server else if saved.hadServer then Some(saved.server) else None)
            && t.override == (if k <= 2 then r.override else if saved.hadOverride then Some(saved.override) else None)
  {
    var ws := DisableWrites(w);
    ApplyThree(w, ws[0], ws[1], ws[2]);
    if k == 0 {
      assert Upto(ws, k) == [];
    } else if k == 1 {
      assert Upto(ws, k) == [ws[0]];
    } else if k == 2 {
      assert Upto(ws, k) == [ws[0], ws[1]];
    } else if k == 3 {
      assert Upto(ws, k) == [ws[0], ws[1], ws[2]];
    } else {
      ApplyOneMore(w, [ws[0], ws[1], ws[2]], ws[3]);
      assert Upto(ws, k) == [ws[0], ws[1], ws[2]] + [ws[3]];
    }
  }

  /** A stop closes the listener whatever became of the restore. While a takeover is in
      effect, it leaves the system pointing at the closed port exactly when no restoring
      write got through, or one did and the user's own proxy was on, or the user's own
      settings were that address. */
  lemma StopLeavesDeadProxyIff<P>(s: Session<P>, address: string, k: nat)
    requires Protected(s) && s.open && s.world.settings.active && PointsAt(s.world.registry, address)
    ensures var t, own := Step(s, Stop(k, false)), s.user;
            && !t.running
            && (PointsAt(t.world.registry, address) <==>
                  k == 0 || (own.enable.Some? && own.enable.value != 0 && (k == 1 || own.server == Some(address))))
  {
    hide Disabled;
    RestorePointsAtIff(s.world, address, k);
  }
}
