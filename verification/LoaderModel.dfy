/**
 The chunked "pkg" and "ota" loader of src/command_listener.rs as a transition system: a staging
 buffer in front of NOR flash, which only clears bits, and of the OTA service. Every foreign call
 may fail; `Env` says which do, and is arbitrary.
 */
module LoaderModel {
  import opened Prelude

  type Cell = bv8
  type Image = seq<Cell>

  const LOADER_CHUNK_LEN := 512
  const ERASED: Cell := 0xFF

  datatype Mode = Pkg | Ota | Other
  datatype LoaderRet = Ok | NotEnoughSpace | Aborted

  /**
   What the foreign calls do. The `t`-th call succeeds when `ok(t)`. After a failed flash call the
   partition holds `debris`, after a failed OTA write the service holds `torn`: both arbitrary.
   */
  datatype Env = Env(
    ok: nat -> bool, debris: (nat, nat) -> Cell, torn: nat -> Image, eraseSize: nat, otaSize: nat)

  /** A byte of a partition, and how often it was written since it was last erased. */
  datatype FlashByte = FlashByte(value: Cell, writes: nat)
  type Flash = seq<FlashByte>

  /**
   The OTA service: how many handles it gave out, what the open ones received, the verified image
   in the update slot, the image made the boot slot; `misused` once a call broke the handle protocol.
   */
  datatype OtaService = OtaService(
    begun: nat, open: map<nat, Image>, slot: Option<Image>, boot: Option<Image>, misused: bool)

  datatype World = World(tick: nat, flash: Flash, ota: OtaService)

  /** The loader's fields of `CommandListener`. */
  datatype Listener = Listener(
    staged: Image, failed: bool, mode: Option<Mode>, written: nat, partition: bool, handle: Option<nat>,
    pkgUpdated: bool, restart: bool)

  datatype State = State(l: Listener, w: World)

  predicate ValidEnv(env: Env) {
    env.eraseSize > 0
  }

  // ---------------------------------------------------------------- foreign calls

  /** A call with no effect here but its outcome. */
  function Ask(env: Env, w: World): (World, bool) {
    (w.(tick := w.tick + 1), env.ok(w.tick))
  }

  function Debris(env: Env, t: nat, size: nat): Flash {
    seq(size, a requires 0 <= a => FlashByte(env.debris(t, a), 0))
  }

  /** `EspPartition::erase(0, len)`: flash is erased in whole sectors, any other length is an error. */
  function Erase(env: Env, w: World, len: nat): (World, bool)
    requires ValidEnv(env)
  {
    if len <= |w.flash| && len % env.eraseSize == 0 && env.ok(w.tick)
    then (World(w.tick + 1, Wipe(w.flash, len), w.ota), true)
    else (World(w.tick + 1, Debris(env, w.tick, |w.flash|), w.ota), false)
  }

  function Wipe(f: Flash, len: nat): Flash {
    seq(|f|, a requires 0 <= a < |f| => if a < len then FlashByte(ERASED, 0) else f[a])
  }

  /** Writing can only clear bits. */
  function Program(f: Flash, offset: nat, data: Image): Flash {
    seq(|f|, a requires 0 <= a < |f| =>
      if offset <= a < offset + |data| then FlashByte(f[a].value & data[a - offset], f[a].writes + 1) else f[a])
  }

  /** `EspPartition::write`. */
  function Write(env: Env, w: World, offset: nat, data: Image): (World, bool) {
    if offset + |data| <= |w.flash| && env.ok(w.tick)
    then (World(w.tick + 1, Program(w.flash, offset, data), w.ota), true)
    else (World(w.tick + 1, Debris(env, w.tick, |w.flash|), w.ota), false)
  }

  /** `esp_ota_begin`; one listener must not have two handles open. */
  function OtaBegin(env: Env, w: World): (World, Option<nat>) {
    var o := w.ota;
    if !env.ok(w.tick) then (w.(tick := w.tick + 1), None)
    else
      (World(w.tick + 1, w.flash,
             OtaService(o.begun + 1, o.open[o.begun := []], None, o.boot, o.misused || o.open != map[])), Some(o.begun))
  }

  /** `esp_ota_write`. */
  function OtaServiceWrite(env: Env, w: World, h: nat, data: Image): (World, bool) {
    var o := w.ota;
    if h !in o.open then (World(w.tick + 1, w.flash, o.(misused := true)), false)
    else if env.ok(w.tick) then (World(w.tick + 1, w.flash, o.(open := o.open[h := o.open[h] + data])), true)
    else (World(w.tick + 1, w.flash, o.(open := o.open[h := env.torn(w.tick)])), false)
  }

  /** `esp_ota_end`: frees the handle either way. */
  function OtaServiceEnd(env: Env, w: World, h: nat): (World, bool) {
    var o := w.ota;
    if h !in o.open then (World(w.tick + 1, w.flash, o.(misused := true)), false)
    else if env.ok(w.tick) then (World(w.tick + 1, w.flash, o.(open := o.open - {h}, slot := Some(o.open[h]))), true)
    else (World(w.tick + 1, w.flash, o.(open := o.open - {h})), false)
  }

  /** `esp_ota_abort`. */
  function OtaAbort(w: World, h: nat): World {
    var o := w.ota;
    if h !in o.open then w.(ota := o.(misused := true)) else w.(ota := o.(open := o.open - {h}))
  }

  /** `esp_ota_set_boot_partition`. */
  function SetBoot(env: Env, w: World): (World, bool) {
    if env.ok(w.tick) then (World(w.tick + 1, w.flash, w.ota.(boot := w.ota.slot)), true)
    else (w.(tick := w.tick + 1), false)
  }

  // ---------------------------------------------------------------- pkg

  function RoundUp(len: nat, unit: nat): nat
    requires unit > 0
  {
    (len + unit - 1) / unit * unit
  }

  /** `pkg_start`. */
  function PkgStart(env: Env, s: State, len: nat): (State, nat)
    requires ValidEnv(env)
  {
    var l := s.l.(written := 0, partition := false);
    var (w, found) := Ask(env, s.w);
    var size := |w.flash|;
    if !found || len > size then (State(l, w), 0)
    else
      var (w, erased) := Erase(env, w, RoundUp(len, env.eraseSize));
      if !erased then (State(l, w), 0) else (State(l.(partition := true), w), size)
  }

  /** `pkg_write`. */
  function PkgWrite(env: Env, s: State, data: Image): (State, bool) {
    if !s.l.partition then (s, false)
    else
      var (w, ok) := Write(env, s.w, s.l.written, data);
      (State(if ok then s.l.(written := s.l.written + |data|) else s.l, w), ok)
  }

  /** `pkg_end`. */
  function PkgEnd(s: State): (State, LoaderRet) {
    if !s.l.partition || s.l.failed then (s.(l := s.l.(partition := false)), NotEnoughSpace)
    else (s.(l := s.l.(partition := false, pkgUpdated := true)), Ok)
  }

  // ---------------------------------------------------------------- ota

  /** `ota_start`. */
  function OtaStart(env: Env, s: State, len: nat): (State, nat) {
    var (w, found) := Ask(env, s.w);
    if !found || len > env.otaSize then (s.(w := w), 0)
    else
      var (w, handle) := OtaBegin(env, w);
      if handle.None? then (s.(w := w), 0) else (State(s.l.(handle := handle), w), env.otaSize)
  }

  /** `ota_write`. */
  function OtaWrite(env: Env, s: State, data: Image): (State, bool) {
    if s.l.handle.None? then (s, false)
    else
      var (w, ok) := OtaServiceWrite(env, s.w, s.l.handle.value, data);
      (s.(w := w), ok)
  }

  /** `ota_end`. */
  function OtaEnd(env: Env, s: State): (State, LoaderRet) {
    var l := s.l.(handle := None);
    if s.l.handle.None? then (s, Aborted)
    else if s.l.failed then (State(l, OtaAbort(s.w, s.l.handle.value)), Aborted)
    else
      var (w, verified) := OtaServiceEnd(env, s.w, s.l.handle.value);
      if !verified then (State(l, w), Aborted)
      else
        var (w, booted) := SetBoot(env, w);
        if !booted then (State(l, w), Aborted) else (State(l.(restart := true), w), Ok)
  }

  // ---------------------------------------------------------------- the loader

  /** `loader_flush`. */
  function Flush(env: Env, s: State): State {
    var data := s.l.staged;
    var s := s.(l := s.l.(staged := []));
    if data == [] || s.l.failed then s
    else
      var (s, ok) :=
        if s.l.mode == Some(Pkg) then PkgWrite(env, s, data)
        else if s.l.mode == Some(Ota) then OtaWrite(env, s, data)
        else (s, true);
      if ok then s else s.(l := s.l.(failed := true))
  }

  /** What a start does first: it releases the handle of an upload that was never finished. */
  function Released(s: State): State {
    State(s.l.(handle := None, staged := [], failed := false),
          if s.l.handle.Some? then OtaAbort(s.w, s.l.handle.value) else s.w)
  }

  /** `process_loader_start`. */
  function Start(env: Env, s: State, mode: Mode, len: nat): (State, nat)
    requires ValidEnv(env)
  {
    var s := Released(s);
    var (s, size) := match mode
      case Pkg => PkgStart(env, s, len)
      case Ota => OtaStart(env, s, len)
      case Other => (s, 0);
    (s.(l := s.l.(mode := if size > 0 then Some(mode) else None)), size)
  }

  /** The body of `process_loader_data`'s loop. */
  function FeedByte(env: Env, s: State, byte: Cell): State {
    var s := s.(l := s.l.(staged := s.l.staged + [byte]));
    if |s.l.staged| == LOADER_CHUNK_LEN then Flush(env, s) else s
  }

  /** `process_loader_data`. */
  function Feed(env: Env, s: State, bytes: Image): State {
    if bytes == [] then s else FeedByte(env, Feed(env, s, bytes[..|bytes| - 1]), bytes[|bytes| - 1])
  }

  /** `process_loader_end`. */
  function End(env: Env, s: State): (State, LoaderRet) {
    var s := Flush(env, s);
    var mode := s.l.mode;
    var s := s.(l := s.l.(mode := None));
    if mode == Some(Pkg) then PkgEnd(s)
    else if mode == Some(Ota) then OtaEnd(env, s)
    else (s, NotEnoughSpace)
  }

  // ---------------------------------------------------------------- fragmentation

  /** How an upload is split into calls does not matter: two calls do what one call with both parts does. */
  lemma {:induction false} FeedConcat(env: Env, s: State, a: Image, b: Image)
    ensures Feed(env, s, a + b) == Feed(env, Feed(env, s, a), b)
  {
    if b == [] {
      assert a + b == a;
    } else {
      var init := b[..|b| - 1];
      FeedConcat(env, s, a, init);
      assert (a + b)[..|a + b| - 1] == a + init;
    }
  }

  function Flatten(calls: seq<Image>): Image {
    if calls == [] then [] else Flatten(calls[..|calls| - 1]) + calls[|calls| - 1]
  }

  /** A run of data calls. */
  function FeedAll(env: Env, s: State, calls: seq<Image>): State {
    if calls == [] then s else Feed(env, FeedAll(env, s, calls[..|calls| - 1]), calls[|calls| - 1])
  }

  lemma {:induction false} FeedAllIsFeed(env: Env, s: State, calls: seq<Image>)
    ensures FeedAll(env, s, calls) == Feed(env, s, Flatten(calls))
  {
    if calls != [] {
      FeedAllIsFeed(env, s, calls[..|calls| - 1]);
      FeedConcat(env, s, Flatten(calls[..|calls| - 1]), calls[|calls| - 1]);
    }
  }

  /** Fragmentation independence: any two ways of splitting the same bytes end in the same state. */
  lemma FragmentationIndependence(env: Env, s: State, calls: seq<Image>, others: seq<Image>)
    requires Flatten(calls) == Flatten(others)
    ensures FeedAll(env, s, calls) == FeedAll(env, s, others)
  {
    FeedAllIsFeed(env, s, calls);
    FeedAllIsFeed(env, s, others);
  }
}
