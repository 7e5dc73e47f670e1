/**
The takeover of the system proxy (gui/app.go, gui/settings.go, gui/sysproxy_windows.go) as
a protocol of single writes: three registry values and a settings file that is replaced
as a whole. A fault can stop it between any two writes.
*/
module SystemProxy {
  import opened Links

  const DWORD_MODULUS := 0x1_0000_0000

  const DEFAULT_BYPASS :=
    "localhost;127.*;10.*;172.16.*;172.17.*;172.18.*;172.19.*;172.20.*;172.21.*;172.22.*;172.23.*;" +
    "172.24.*;172.25.*;172.26.*;172.27.*;172.28.*;172.29.*;172.30.*;172.31.*;192.168.*;" +
    "*.msftconnecttest.com;*.msftncsi.com;disabled.invalid;<local>"

  // The three values under the Internet Settings key; each may be missing.
  datatype Registry = Registry(enable: Option<nat>, server: Option<string>, override: Option<string>)

  // A captured configuration.
  datatype ProxyState = ProxyState(enable: nat, server: string, override: string, hadServer: bool, hadOverride: bool)

  // The settings file: the recovery record, and everything else in it.
  datatype Settings<P> = Settings(active: bool, saved: ProxyState, rest: P)

  datatype World<P> = World(registry: Registry, settings: Settings<P>)

  function Read(r: Registry): ProxyState {
    ProxyState(
      if r.enable.Some? then r.enable.value else 0,
      if r.server.Some? then r.server.value else "",
      if r.override.Some? then r.override.value else "",
      r.server.Some?, r.override.Some?)
  }

  // ----- the writes

  datatype Write<P> =
    | SetEnable(value: nat)
    | SetServer(text: string)
    | DeleteServer
    | SetOverride(text: string)
    | DeleteOverride
    | Save(settings: Settings<P>)

  function Apply<P>(w: World<P>, write: Write<P>): World<P> {
    match write
    case SetEnable(value) => w.(registry := w.registry.(enable := Some(value)))
    case SetServer(text) => w.(registry := w.registry.(server := Some(text)))
    case DeleteServer => w.(registry := w.registry.(server := None))
    case SetOverride(text) => w.(registry := w.registry.(override := Some(text)))
    case DeleteOverride => w.(registry := w.registry.(override := None))
    case Save(settings) => w.(settings := settings)
  }

  function ApplyAll<P>(w: World<P>, writes: seq<Write<P>>): World<P> {
    if writes == [] then w
    else Apply(ApplyAll(w, writes[..|writes| - 1]), writes[|writes| - 1])
  }

  // The first k writes, or all there are.
  function Upto<P>(writes: seq<Write<P>>, k: nat): seq<Write<P>> {
    if k <= |writes| then writes[..k] else writes
  }

  function EnableWrites<P>(w: World<P>, address: string): seq<Write<P>> {
    [Save(w.settings.(saved := Read(w.registry), active := true)),
     SetServer(address), SetOverride(DEFAULT_BYPASS), SetEnable(1)]
  }

  // The saved state is put back with its enable value cut to 32 bits.
  function RestoreWrites<P>(saved: ProxyState): seq<Write<P>> {
    [SetEnable(saved.enable % DWORD_MODULUS),
     if saved.hadServer then SetServer(saved.server) else DeleteServer,
     if saved.hadOverride then SetOverride(saved.override) else DeleteOverride]
  }

  function DisableWrites<P>(w: World<P>): seq<Write<P>> {
    RestoreWrites(w.settings.saved) + [Save(w.settings.(active := false))]
  }

  // ----- what the user had set up

  predicate PointsAt(r: Registry, address: string) {
    r.server == Some(address) && r.enable.Some? && r.enable.value != 0
  }

  // The registry holds what the user set up; a missing enable value may have become zero.
  predicate InEffect(r: Registry, user: Registry) {
    && r.server == user.server && r.override == user.override
    && (r.enable == user.enable || (user.enable == None && r.enable == Some(0)))
  }

  /** With the user's settings in effect the system uses exactly the proxy it used before. */
  lemma InEffectPointsAsBefore(r: Registry, user: Registry)
    requires InEffect(r, user)
    ensures forall address :: PointsAt(r, address) <==> PointsAt(user, address)
    ensures Read(r) == Read(user)
  {
  }

  // An enable value that survives being cut to 32 bits.
  predicate Restorable(user: Registry) {
    user.enable.Some? ==> user.enable.value < 0x1_0000_0000
  }

  // ----- safety

  // What the user had set up is either in effect or recorded for recovery.
  predicate Safe<P(==)>(w: World<P>, user: Registry) {
    if w.settings.active then w.settings.saved == Read(user) else InEffect(w.registry, user)
  }

  // A configuration that comes from the registry, with a 32-bit enable value.
  predicate Captured(p: ProxyState) {
    && p.enable < DWORD_MODULUS
    && (p.hadServer || p.server == "") && (p.hadOverride || p.override == "")
  }

  lemma ApplyOneMore<P>(w: World<P>, writes: seq<Write<P>>, last: Write<P>)
    ensures ApplyAll(w, writes + [last]) == Apply(ApplyAll(w, writes), last)
    ensures ApplyAll(w, []) == w
  {
    assert (writes + [last])[..|writes|] == writes;
  }

  lemma ApplyThree<P>(w: World<P>, a: Write<P>, b: Write<P>, c: Write<P>)
    ensures ApplyAll(w, [a]) == Apply(w, a)
    ensures ApplyAll(w, [a, b]) == Apply(Apply(w, a), b)
    ensures ApplyAll(w, [a, b, c]) == Apply(Apply(Apply(w, a), b), c)
  {
    hide Apply, ApplyAll;
    assert [] + [a] == [a] && [a] + [b] == [a, b] && [a, b] + [c] == [a, b, c];
    ApplyOneMore(w, [], a);
    ApplyOneMore(w, [a], b);
    ApplyOneMore(w, [a, b], c);
  }

  /** Putting a configuration back makes the registry read as it exactly when it is one
      that could have been captured: the cut to 32 bits loses nothing else. */
  lemma RestoredIffCaptured<P>(w: World<P>, saved: ProxyState)
    ensures Read(ApplyAll(w, RestoreWrites(saved)).registry) == saved <==> Captured(saved)
    ensures ApplyAll(w, RestoreWrites(saved)).settings == w.settings
  {
    var ws: seq<Write<P>> := RestoreWrites(saved);
    ApplyThree(w, ws[0], ws[1], ws[2]);
  }

  // The registry after a restore of whatever was captured from r.
  lemma RestoredRegistry<P>(w: World<P>, r: Registry)
    ensures var t := ApplyAll(w, RestoreWrites(Read(r))).registry;
            && t.server == r.server && t.override == r.override
            && t.enable == Some(if r.enable.Some? then r.enable.value % DWORD_MODULUS else 0)
  {
    var ws: seq<Write<P>> := RestoreWrites(Read(r));
    ApplyThree(w, ws[0], ws[1], ws[2]);
  }

  /** Capturing and restoring: the values are as they were, missing ones missing again, but
      the enable value is cut to 32 bits, and zero if it was missing. That is the user's
      setup in effect again exactly when the cut loses nothing. */
  lemma CapturedComesBack<P>(w: World<P>, r: Registry)
    ensures var t := ApplyAll(w, RestoreWrites(Read(r))).registry;
            && t.server == r.server && t.override == r.override
            && t.enable == Some(if r.enable.Some? then r.enable.value % DWORD_MODULUS else 0)
            && (InEffect(t, r) <==> Restorable(r))
            && (Restorable(r) ==> forall address :: PointsAt(t, address) <==> PointsAt(r, address))
  {
    hide RestoreWrites, Read;
    RestoredRegistry(w, r);
  }

  lemma ApplyOnlyRegistry<P>(w: World<P>, writes: seq<Write<P>>)
    requires forall k :: 0 <= k < |writes| ==> !writes[k].Save?
    ensures ApplyAll(w, writes).settings == w.settings
  {
  }

  /** Taking over: stopped anywhere, the user's configuration is in effect or recorded. */
  lemma EnableIsSafe<P>(w: World<P>, user: Registry, address: string, k: nat)
    requires !w.settings.active && Safe(w, user)
    ensures Safe(ApplyAll(w, Upto(EnableWrites(w, address), k)), user)
    ensures k >= 1 ==> ApplyAll(w, Upto(EnableWrites(w, address), k)).settings.active
  {
    hide Read, InEffect, EnableWrites, Upto;
    EnableRecords(w, address, k);
    InEffectPointsAsBefore(w.registry, user);
  }

  // What enabling leaves on disk: from its first write on, what it read.
  lemma EnableRecords<P>(w: World<P>, address: string, k: nat)
    ensures var t := ApplyAll(w, Upto(EnableWrites(w, address), k));
            && t.settings == (if k == 0 then w.settings else w.settings.(saved := Read(w.registry), active := true))
            && (k == 0 ==> t == w)
  {
    hide Read;
    var ws, record := EnableWrites(w, address), w.settings.(saved := Read(w.registry), active := true);
    var rest := Upto(ws, k);
    if k > 0 {
      var t := Apply(w, ws[0]);
      assert rest == [ws[0]] + rest[1..];
      ApplyFirst(w, rest);
      ApplyOnlyRegistry(t, rest[1..]);
    }
  }

  lemma {:induction false} ApplyFirst<P>(w: World<P>, writes: seq<Write<P>>)
    requires writes != []
    ensures ApplyAll(w, writes) == ApplyAll(Apply(w, writes[0]), writes[1..])
  {
    hide Apply;
    var m := |writes| - 1;
    if m == 0 {
      ApplyThree(w, writes[0], writes[0], writes[0]);
      assert writes == [writes[0]];
    } else {
      ApplyFirst(w, writes[..m]);
      assert writes[1..][..m - 1] == writes[..m][1..];
    }
  }

  /** Giving back: stopped anywhere, the recovery record stays until the user's settings are
      back in the registry; carried through, they are and the record is cleared. */
  lemma DisableIsSafe<P>(w: World<P>, user: Registry, k: nat)
    requires w.settings.active && Safe(w, user) && Restorable(user)
    ensures Safe(ApplyAll(w, Upto(DisableWrites(w), k)), user)
    ensures k >= 4 ==>
              var t := ApplyAll(w, Upto(DisableWrites(w), k));
              && !t.settings.active && InEffect(t.registry, user)
              && t.registry.enable == Some(if user.enable.Some? then user.enable.value else 0)
    ensures k < 4 ==> ApplyAll(w, Upto(DisableWrites(w), k)).settings == w.settings
  {
    hide Read;
    var restore: seq<Write<P>> := RestoreWrites(w.settings.saved);
    if k < 4 {
      assert Upto(DisableWrites(w), k) == restore[..k];
      ApplyOnlyRegistry(w, restore[..k]);
    } else {
      assert Upto(DisableWrites(w), k) == DisableWrites(w);
      CapturedComesBack(w, user);
      RestoredIffCaptured(w, w.settings.saved);
      ApplyOneMore(w, restore, Save(w.settings.(active := false)));
    }
  }
}
