/**
The takeover as the app performs it (gui/app.go:48-277, gui/app.go:365-408): methods that
read and write the machine one value at a time. Each takes exactly its step of
`SystemProxyRuns`.
*/
module SystemProxyApp {
  import opened Links
  import opened SystemProxy
  import opened SystemProxyRuns

  /** The registry key and the settings file. `fuse` is how many writes still get through;
      every later one fails, as it does when the key cannot be opened for writing. */
  class Machine<P(!new)> {
    var enable: Option<nat>
    var server: Option<string>
    var override: Option<string>
    var settings: Settings<P>
    var fuse: nat
    // Whether the key can be opened for reading.
    const readable: bool

    ghost function State(): World<P>
      reads this
    {
      World(Registry(enable, server, override), settings)
    }

    constructor (w: World<P>, fuse: nat, readable: bool)
      ensures State() == w && this.fuse == fuse && this.readable == readable
    {
      enable, server, override, settings, this.fuse, this.readable :=
        w.registry.enable, w.registry.server, w.registry.override, w.settings, fuse, readable;
    }

    // Whether the next write gets through.
    method Burn() returns (ok: bool)
      modifies this`fuse
      ensures ok == (old(fuse) > 0) && fuse == if ok then old(fuse) - 1 else 0
    {
      ok := fuse > 0;
      if ok {
        fuse := fuse - 1;
      }
    }

    method SetDWordValue(value: nat) returns (ok: bool)
      modifies this
      ensures Written(ok, old(State()), old(fuse), SetEnable(value))
    {
      ok := Burn();
      if ok {
        enable := Some(value);
      }
    }

    method SetServerValue(text: Option<string>) returns (ok: bool)
      modifies this
      ensures Written(ok, old(State()), old(fuse), if text.Some? then SetServer(text.value) else DeleteServer)
    {
      ok := Burn();
      if ok {
        server := text;
      }
    }

    method SetOverrideValue(text: Option<string>) returns (ok: bool)
      modifies this
      ensures Written(ok, old(State()), old(fuse), if text.Some? then SetOverride(text.value) else DeleteOverride)
    {
      ok := Burn();
      if ok {
        override := text;
      }
    }

    method SaveSettings(s: Settings<P>) returns (ok: bool)
      modifies this
      ensures Written(ok, old(State()), old(fuse), Save(s))
    {
      ok := Burn();
      if ok {
        settings := s;
      }
    }

    // One write, or none once the fuse has burnt.
    ghost predicate Written(ok: bool, before: World<P>, budget: nat, write: Write<P>)
      reads this
    {
      && ok == (budget > 0)
      && State() == (if ok then Apply(before, write) else before)
      && fuse == if ok then budget - 1 else 0
    }

    /** Captures the three values: a missing enable value as off, and of the other two
        whether they exist at all. */
    method ReadSystemProxy() returns (r: Option<ProxyState>)
      ensures r == if readable then Some(Read(State().registry)) else None
      ensures r.Some? ==> r.value.enable == (if enable == None then 0 else enable.value)
      ensures r.Some? ==> server == if r.value.hadServer then Some(r.value.server) else None
      ensures r.Some? ==> override == if r.value.hadOverride then Some(r.value.override) else None
    {
      if !readable {
        return None;
      }
      var state := ProxyState(0, "", "", false, false);
      if enable.Some? {
        state := state.(enable := enable.value);
      }
      if server.Some? {
        state := state.(server := server.value, hadServer := true);
      }
      if override.Some? {
        state := state.(override := override.value, hadOverride := true);
      }
      return Some(state);
    }

    // Points the system at the address.
    method ApplySystemProxy(address: string) returns (ok: bool)
      modifies this
      ensures WrittenAll(ok, old(State()), old(fuse), [SetServer(address), SetOverride(DEFAULT_BYPASS), SetEnable(1)])
    {
      hide Apply, ApplyAll;
      ghost var w, k := State(), fuse;
      ThreeWrites(w, SetServer(address), SetOverride(DEFAULT_BYPASS), SetEnable(1), k);
      ok := SetServerValue(Some(address));
      if !ok {
        return;
      }
      ok := SetOverrideValue(Some(DEFAULT_BYPASS));
      if !ok {
        return;
      }
      ok := SetDWordValue(1);
    }

    // Puts a captured configuration back, a value that did not exist by deleting it.
    method RestoreSystemProxy(state: ProxyState) returns (ok: bool)
      modifies this
      ensures WrittenAll(ok, old(State()), old(fuse), RestoreWrites(state))
    {
      hide Apply, ApplyAll;
      ghost var w, k, ws := State(), fuse, RestoreWrites<P>(state);
      ThreeWrites(w, ws[0], ws[1], ws[2], k);
      ok := SetDWordValue(state.enable % DWORD_MODULUS);
      if !ok {
        return;
      }
      ok := SetServerValue(if state.hadServer then Some(state.server) else None);
      if !ok {
        return;
      }
      ok := SetOverrideValue(if state.hadOverride then Some(state.override) else None);
    }

    // As many of the writes as get through.
    ghost predicate WrittenAll(ok: bool, before: World<P>, budget: nat, writes: seq<Write<P>>)
      reads this
    {
      && ok == (budget >= |writes|)
      && State() == ApplyAll(before, Upto(writes, budget))
      && fuse == if ok then budget - |writes| else 0
    }
  }

  lemma ThreeWrites<P>(w: World<P>, a: Write<P>, b: Write<P>, c: Write<P>, k: nat)
    ensures ApplyAll(w, Upto([a, b, c], k)) ==
            if k == 0 then w
            else if k == 1 then Apply(w, a)
            else if k == 2 then Apply(Apply(w, a), b)
            else Apply(Apply(Apply(w, a), b), c)
  {
    ApplyThree(w, a, b, c);
    assert [a, b, c][..0] == [] && [a, b, c][..1] == [a] && [a, b, c][..2] == [a, b] && [a, b, c][..3] == [a, b, c];
  }

  lemma FirstThenRest<P>(w: World<P>, first: Write<P>, rest: seq<Write<P>>, k: nat)
    ensures ApplyAll(w, Upto([first] + rest, k)) == if k == 0 then w else ApplyAll(Apply(w, first), Upto(rest, k - 1))
  {
    hide Apply;
    if k > 0 {
      var ws := Upto([first] + rest, k);
      ApplyFirst(w, ws);
      assert ws[1..] == Upto(rest, k - 1);
    }
  }

  lemma RestThenLast<P>(w: World<P>, rest: seq<Write<P>>, last: Write<P>, k: nat)
    ensures ApplyAll(w, Upto(rest + [last], k)) ==
            if k <= |rest| then ApplyAll(w, Upto(rest, k)) else Apply(ApplyAll(w, rest), last)
  {
    hide Apply;
    if k <= |rest| {
      assert Upto(rest + [last], k) == Upto(rest, k);
    } else {
      ApplyOneMore(w, rest, last);
      assert Upto(rest + [last], k) == rest + [last];
    }
  }

  /** The app. Its fields are lost when it dies; the machine's are not. */
  class App<P(!new)> {
    const machine: Machine<P>
    var open: bool
    var running: bool
    var systemProxyApplied: bool

    constructor (machine: Machine<P>)
      ensures this.machine == machine && !open && !running && !systemProxyApplied
    {
      this.machine, open, running, systemProxyApplied := machine, false, false, false;
    }

    ghost function View(user: Registry): Session<P>
      reads this, machine
    {
      Session(machine.State(), open, running, systemProxyApplied, user)
    }

    /** Captures, records, and only then takes over. What cannot be captured is left alone. */
    method EnableSystemProxy(address: string) returns (ok: bool)
      modifies this`systemProxyApplied, machine
      ensures ok <==> machine.readable && old(machine.fuse) >= 4
      ensures machine.State() ==
              Enabled(old(machine.State()), address, if machine.readable then old(machine.fuse) else 0)
      ensures systemProxyApplied == (old(systemProxyApplied) || ok)
    {
      hide Apply, ApplyAll, Read;
      ghost var w, k := machine.State(), if machine.readable then machine.fuse else 0;
      TakeoverWrites(w, address, k);
      var previous := machine.ReadSystemProxy();
      if previous.None? {
        return false;
      }
      var settings := machine.settings;
      settings := settings.(saved := previous.value, active := true);
      ok := machine.SaveSettings(settings);
      if !ok {
        return;
      }
      ok := machine.ApplySystemProxy(address);
      if !ok {
        return;
      }
      systemProxyApplied := true;
    }

    lemma TakeoverWrites(w: World<P>, address: string, k: nat)
      ensures var record := Save(w.settings.(saved := Read(w.registry), active := true));
              var values := [SetServer(address), SetOverride(DEFAULT_BYPASS), SetEnable(1)];
              Enabled(w, address, k) ==
              if k == 0 then w
              else ApplyAll(Apply(w, record), Upto(values, k - 1))
    {
      hide Apply, ApplyAll, Read;
      var record := Save(w.settings.(saved := Read(w.registry), active := true));
      var rest := [SetServer(address), SetOverride(DEFAULT_BYPASS), SetEnable(1)];
      FirstThenRest(w, record, rest, k);
      assert EnableWrites(w, address) == [record] + rest;
    }

    /** Gives back what was captured, and clears the record only once that is done. */
    method DisableSystemProxy()
      modifies this`systemProxyApplied, machine
      ensures !systemProxyApplied
      ensures machine.State() ==
              if old(systemProxyApplied) || old(machine.settings.active)
              then Disabled(old(machine.State()), old(machine.fuse)) else old(machine.State())
    {
      hide Apply, ApplyAll, RestoreWrites;
      ghost var w, k := machine.State(), machine.fuse;
      var applied := systemProxyApplied;
      systemProxyApplied := false;
      var settings := machine.settings;
      if !applied && !settings.active {
        return;
      }
      GivingBackWrites(w, k);
      var ok := machine.RestoreSystemProxy(settings.saved);
      if !ok {
        // The recovery flag stays set so that the next launch tries again.
        return;
      }
      settings := settings.(active := false);
      ok := machine.SaveSettings(settings);
    }

    lemma GivingBackWrites(w: World<P>, k: nat)
      ensures |RestoreWrites<P>(w.settings.saved)| == 3
      ensures Upto(RestoreWrites<P>(w.settings.saved), k) ==
              if k >= 3 then RestoreWrites(w.settings.saved) else RestoreWrites(w.settings.saved)[..k]
      ensures Disabled(w, k) ==
              if k <= 3 then ApplyAll(w, Upto(RestoreWrites(w.settings.saved), k))
              else Apply(ApplyAll(w, RestoreWrites(w.settings.saved)), Save(w.settings.(active := false)))
    {
      hide Apply, ApplyAll;
      RestThenLast(w, RestoreWrites(w.settings.saved), Save(w.settings.(active := false)), k);
    }

    /** A launch repairs what an earlier session left behind. */
    method Startup(ghost user: Registry)
      requires !open && !systemProxyApplied
      modifies this, machine
      ensures View(user) == Step(old(View(user)), Launch(old(machine.fuse), false))
      ensures open && !running && !systemProxyApplied
    {
      hide Disabled;
      open, running := true, false;
      var settings := machine.settings;
      if settings.active {
        DisableSystemProxy();
      }
    }

    method PersistConfig(rest: P) returns (ok: bool)
      modifies machine
      ensures ok == (old(machine.fuse) > 0)
      ensures machine.State() == Preferred(old(machine.State()), rest, ok)
      ensures machine.settings == if ok then old(machine.settings).(rest := rest) else old(machine.settings)
      ensures unchanged(machine`enable, machine`server, machine`override)
      ensures machine.fuse == if ok then old(machine.fuse) - 1 else 0
    {
      var settings := machine.settings;
      settings := settings.(rest := rest);
      ok := machine.SaveSettings(settings);
    }

    /** A start, once the listeners are up: the configuration is kept, and redirecting the
        system is the last step. */
    method StartProxy(rest: P, address: Option<string>, listens: bool, ghost user: Registry) returns (ok: bool)
      requires open
      modifies this, machine
      ensures ok <==> !old(running) && listens
      ensures !ok ==> View(user) == old(View(user))
      ensures ok ==> open && running
      ensures ok ==> machine.settings.rest == if old(machine.fuse) > 0 then rest else old(machine.settings.rest)
      ensures ok && address.None? ==> machine.State().registry == old(machine.State().registry)
      ensures ok && address.Some? && machine.readable && old(machine.fuse) >= 5 ==>
                && machine.State().registry == Registry(Some(1), address, Some(DEFAULT_BYPASS))
                && machine.settings.active && systemProxyApplied
      ensures ok ==>
                var fuse := old(machine.fuse);
                var k := if machine.readable && fuse > 0 then fuse - 1 else 0;
                View(user) == Step(old(View(user)), Start(rest, fuse > 0, address, k, false))
    {
      hide Enabled;
      if running || !listens {
        return false;
      }
      running := true;
      var _ := PersistConfig(rest);
      if address.Some? {
        ghost var w, k := machine.State(), if machine.readable then machine.fuse else 0;
        TakeoverRecords(w, address.value, k);
        TakeoverStates(w, address.value, k);
        var _ := EnableSystemProxy(address.value);
      }
      return true;
    }

    /** A stop gives the system its settings back before the listener goes away. */
    method StopProxy(ghost user: Registry)
      requires open
      modifies this, machine
      ensures View(user) == Step(old(View(user)), Stop(old(machine.fuse), false))
      ensures open && !running && !systemProxyApplied
    {
      hide Disabled;
      DisableSystemProxy();
      running := false;
    }
  }
}
