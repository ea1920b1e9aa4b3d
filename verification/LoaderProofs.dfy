/**
 What every run of the loader keeps: its handles are used properly, its staging buffer never
 overflows, and what reached flash or the OTA service is exactly what was sent. From that: what an
 upload that reports success has done, and that nothing else makes an image the boot slot.
 */
module LoaderProofs {
  import opened Prelude
  import opened Arith
  import opened LoaderModel

  /** The calls a control connection makes, in any order. */
  datatype Step = Begin(mode: Mode, len: nat) | Data(bytes: Image) | Finish

  /**
   The loader with its history since the last start: the bytes sent, the region that start erased,
   and the partition as it was before.
   */
  datatype Upload = Upload(s: State, sent: Image, region: nat, before: Flash)

  function Apply(env: Env, u: Upload, step: Step): Upload
    requires ValidEnv(env)
  {
    match step
    case Begin(mode, len) => Upload(Start(env, u.s, mode, len).0, [], RoundUp(len, env.eraseSize), u.s.w.flash)
    case Data(bytes) => u.(s := Feed(env, u.s, bytes), sent := u.sent + bytes)
    case Finish => u.(s := End(env, u.s).0)
  }

  function Run(env: Env, u: Upload, steps: seq<Step>): Upload
    requires ValidEnv(env)
  {
    if steps == [] then u else Apply(env, Run(env, u, steps[..|steps| - 1]), steps[|steps| - 1])
  }

  /** After boot: nothing staged, no upload, no handle given out; the flash holds anything. */
  predicate Initial(u: Upload) {
    && u.s.l == Listener([], false, None, 0, false, None, false, false)
    && u.s.w.ota == OtaService(0, map[], None, None, false)
    && u.sent == []
  }

  ghost predicate Reachable(env: Env, u: Upload)
    requires ValidEnv(env)
  {
    exists first, steps :: Initial(first) && u == Run(env, first, steps)
  }

  // ---------------------------------------------------------------- the invariant

  /** The handle protocol: the listener's handle is the only open one. */
  predicate Handles(l: Listener, o: OtaService) {
    && !o.misused
    && match l.handle
       case None => o.open == map[]
       case Some(h) => h < o.begun && o.open.Keys == {h}
  }

  predicate Modes(l: Listener) {
    && |l.staged| < LOADER_CHUNK_LEN
    && (l.mode == Some(Ota) ==> l.handle.Some?)
    && (l.mode == Some(Pkg) ==> l.partition)
  }

  /** What the `a`-th byte of the partition is once the first `written` bytes of `sent` are in. */
  function Expected(sent: Image, written: nat, region: nat, before: Flash, a: nat): FlashByte
    requires written <= |sent| && a < |before|
  {
    if a < written then FlashByte(sent[a], 1) else if a < region then FlashByte(ERASED, 0) else before[a]
  }

  /** The written bytes are in flash, each written once; the rest of the region is erased, and beyond it untouched. */
  predicate InFlash(f: Flash, sent: Image, written: nat, region: nat, before: Flash)
    requires written <= |sent|
  {
    |f| == |before| && region <= |f| && forall a | 0 <= a < |f| :: f[a] == Expected(sent, written, region, before, a)
  }

  /** A "pkg" upload that has not failed, as long as no more is sent than was erased for. */
  predicate PkgProgress(u: Upload) {
    var l := u.s.l;
    l.mode == Some(Pkg) && !l.failed && |u.sent| <= u.region ==>
      l.written <= |u.sent| && l.staged == u.sent[l.written..]
      && InFlash(u.s.w.flash, u.sent, l.written, u.region, u.before)
  }

  /** An "ota" upload that has not failed. */
  predicate OtaProgress(u: Upload) {
    var l := u.s.l;
    l.mode == Some(Ota) && !l.failed && l.handle.Some? && l.handle.value in u.s.w.ota.open ==>
      u.s.w.ota.open[l.handle.value] + l.staged == u.sent
  }

  predicate Inv(u: Upload) {
    Handles(u.s.l, u.s.w.ota) && Modes(u.s.l) && PkgProgress(u) && OtaProgress(u)
  }

  // ---------------------------------------------------------------- each step keeps it

  /** Writing the next bytes into the erased part of the region. */
  lemma ProgramNext(f: Flash, sent: Image, written: nat, region: nat, before: Flash)
    requires written <= |sent| <= region && InFlash(f, sent, written, region, before)
    ensures InFlash(Program(f, written, sent[written..]), sent, |sent|, region, before)
  {
  }

  /** One more byte was sent, and is staged. */
  lemma SentMore(f: Flash, sent: Image, byte: Cell, written: nat, region: nat, before: Flash)
    requires written <= |sent| && InFlash(f, sent, written, region, before)
    ensures InFlash(f, sent + [byte], written, region, before)
  {
  }

  /** What `loader_flush` needs: `Inv`, with a staging buffer that may be full. */
  predicate Flushable(u: Upload) {
    && Handles(u.s.l, u.s.w.ota) && PkgProgress(u) && OtaProgress(u)
    && (u.s.l.mode == Some(Ota) ==> u.s.l.handle.Some?) && (u.s.l.mode == Some(Pkg) ==> u.s.l.partition)
  }

  lemma FlushPkg(env: Env, u: Upload)
    requires Flushable(u) && u.s.l.mode == Some(Pkg)
    ensures Inv(u.(s := Flush(env, u.s)))
  {
    var l := u.s.l;
    if l.staged != [] && !l.failed && |u.sent| <= u.region {
      ProgramNext(u.s.w.flash, u.sent, l.written, u.region, u.before);
    }
  }

  lemma FlushOta(env: Env, u: Upload)
    requires Flushable(u) && u.s.l.mode == Some(Ota)
    ensures Inv(u.(s := Flush(env, u.s)))
  {
  }

  /** Flushing keeps the invariant, leaves nothing staged and changes neither mode nor handle. */
  lemma FlushKeeps(env: Env, u: Upload)
    requires Flushable(u)
    ensures Inv(u.(s := Flush(env, u.s)))
  {
    if u.s.l.mode == Some(Pkg) { FlushPkg(env, u); } else if u.s.l.mode == Some(Ota) { FlushOta(env, u); }
  }

  lemma FlushKeepsMode(env: Env, s: State)
    ensures var t := Flush(env, s);
      t.l.staged == [] && t.l.mode == s.l.mode && t.l.handle == s.l.handle && t.l.partition == s.l.partition
      && t.w.ota.boot == s.w.ota.boot && t.l.restart == s.l.restart && t.l.pkgUpdated == s.l.pkgUpdated
  {
  }

  lemma StageKeeps(u: Upload, byte: Cell)
    requires Inv(u)
    ensures Flushable(u.(s := u.s.(l := u.s.l.(staged := u.s.l.staged + [byte])), sent := u.sent + [byte]))
  {
    var l := u.s.l;
    if l.mode == Some(Pkg) && !l.failed && |u.sent| < u.region {
      SentMore(u.s.w.flash, u.sent, byte, l.written, u.region, u.before);
      assert (u.sent + [byte])[l.written..] == u.sent[l.written..] + [byte];
    }
    if l.mode == Some(Ota) && !l.failed {
      var got := u.s.w.ota.open[l.handle.value];
      assert got + (l.staged + [byte]) == (got + l.staged) + [byte];
    }
  }

  lemma ByteKeeps(env: Env, u: Upload, byte: Cell)
    requires Inv(u)
    ensures Inv(u.(s := FeedByte(env, u.s, byte), sent := u.sent + [byte]))
  {
    StageKeeps(u, byte);
    var staged := u.(s := u.s.(l := u.s.l.(staged := u.s.l.staged + [byte])), sent := u.sent + [byte]);
    if |staged.s.l.staged| == LOADER_CHUNK_LEN { FlushKeeps(env, staged); }
  }

  lemma {:induction false} FeedKeeps(env: Env, u: Upload, bytes: Image)
    requires Inv(u)
    ensures Inv(u.(s := Feed(env, u.s, bytes), sent := u.sent + bytes))
  {
    if bytes == [] {
      assert u.sent + bytes == u.sent;
    } else {
      var init, byte := bytes[..|bytes| - 1], bytes[|bytes| - 1];
      FeedKeeps(env, u, init);
      ByteKeeps(env, u.(s := Feed(env, u.s, init), sent := u.sent + init), byte);
      assert u.sent + bytes == (u.sent + init) + [byte];
    }
  }

  /** `region` is the shortest run of whole sectors that `len` bytes fit in. */
  predicate WholeSectors(region: nat, len: nat, sector: nat)
    requires sector > 0
  {
    region % sector == 0 && len <= region < len + sector
  }

  lemma RoundUpIsWholeSectors(len: nat, sector: nat)
    requires sector > 0
    ensures WholeSectors(RoundUp(len, sector), len, sector)
  {
    var q, r := Quotient(len + sector - 1, sector);
    DivModOf(sector, q, 0);
    assert RoundUp(len, sector) == sector * q;
  }

  lemma WholeSectorsAreUnique(a: nat, b: nat, len: nat, sector: nat)
    requires sector > 0 && WholeSectors(a, len, sector) && WholeSectors(b, len, sector)
    ensures a == b
  {
    var p, _ := Quotient(a, sector);
    var q, _ := Quotient(b, sector);
    MulMonotone(sector, p + 1, q);
    MulMonotone(sector, q + 1, p);
    assert sector * (p + 1) == sector * p + sector && sector * (q + 1) == sector * q + sector;
  }

  lemma RegionIsRoundUp(region: nat, len: nat, sector: nat)
    requires sector > 0 && WholeSectors(region, len, sector)
    ensures region == RoundUp(len, sector)
  {
    RoundUpIsWholeSectors(len, sector);
    WholeSectorsAreUnique(region, RoundUp(len, sector), len, sector);
  }

  lemma ReleaseKeeps(u: Upload)
    requires Inv(u)
    ensures var s := Released(u.s);
      Handles(s.l, s.w.ota) && s.w.ota.open == map[] && s.w.flash == u.s.w.flash && s.w.ota.boot == u.s.w.ota.boot
  {
  }

  lemma WipedIsErased(f: Flash, region: nat)
    requires region <= |f|
    ensures InFlash(Wipe(f, region), [], 0, region, f)
  {
  }

  /** What `pkg_start` does: nothing but to the partition, which it has erased when it accepts. */
  lemma PkgStartErases(env: Env, s: State, len: nat)
    requires ValidEnv(env)
    ensures var (t, size) := PkgStart(env, s, len);
      && t.l == s.l.(written := 0, partition := t.l.partition) && t.w.ota == s.w.ota
      && (size > 0 ==> t.l.partition && InFlash(t.w.flash, [], 0, RoundUp(len, env.eraseSize), s.w.flash))
  {
    var region := RoundUp(len, env.eraseSize);
    RoundUpIsWholeSectors(len, env.eraseSize);
    if region <= |s.w.flash| { WipedIsErased(s.w.flash, region); }
  }

  lemma StartPkgKeeps(env: Env, u: Upload, len: nat)
    requires ValidEnv(env) && Inv(u)
    ensures Inv(Apply(env, u, Begin(Pkg, len)))
    ensures Start(env, u.s, Pkg, len).0.w.ota.boot == u.s.w.ota.boot
  {
    ReleaseKeeps(u);
    PkgStartErases(env, Released(u.s), len);
  }

  lemma StartOtaKeeps(env: Env, u: Upload, len: nat)
    requires ValidEnv(env) && Inv(u)
    ensures Inv(Apply(env, u, Begin(Ota, len)))
    ensures Start(env, u.s, Ota, len).0.w.ota.boot == u.s.w.ota.boot
  {
    ReleaseKeeps(u);
  }

  lemma StartKeeps(env: Env, u: Upload, mode: Mode, len: nat)
    requires ValidEnv(env) && Inv(u)
    ensures var v := Apply(env, u, Begin(mode, len));
      Inv(v) && v.s.w.ota.boot == u.s.w.ota.boot && v.s.l.restart == u.s.l.restart
  {
    match mode
    case Pkg => StartPkgKeeps(env, u, len);
    case Ota => StartOtaKeeps(env, u, len);
    case Other => ReleaseKeeps(u);
  }

  /** Feeding bytes sets no boot slot and requests no restart. */
  lemma {:induction false} FeedOnlyLoads(env: Env, s: State, bytes: Image)
    ensures var t := Feed(env, s, bytes);
      t.w.ota.boot == s.w.ota.boot && t.l.restart == s.l.restart && t.l.pkgUpdated == s.l.pkgUpdated
      && t.l.mode == s.l.mode
  {
    if bytes != [] {
      var init, byte := bytes[..|bytes| - 1], bytes[|bytes| - 1];
      FeedOnlyLoads(env, s, init);
      var t := Feed(env, s, init);
      FlushKeepsMode(env, t.(l := t.l.(staged := t.l.staged + [byte])));
    }
  }

  lemma EndKeeps(env: Env, u: Upload)
    requires Inv(u)
    ensures Inv(u.(s := End(env, u.s).0))
  {
    FlushKeeps(env, u);
    FlushKeepsMode(env, u.s);
  }

  lemma StepKeeps(env: Env, u: Upload, step: Step)
    requires ValidEnv(env) && Inv(u)
    ensures Inv(Apply(env, u, step))
  {
    match step
    case Begin(mode, len) => StartKeeps(env, u, mode, len);
    case Data(bytes) => FeedKeeps(env, u, bytes);
    case Finish => EndKeeps(env, u);
  }

  lemma {:induction false} RunKeeps(env: Env, u: Upload, steps: seq<Step>)
    requires ValidEnv(env) && Inv(u)
    ensures Inv(Run(env, u, steps))
  {
    if steps != [] {
      RunKeeps(env, u, steps[..|steps| - 1]);
      StepKeeps(env, Run(env, u, steps[..|steps| - 1]), steps[|steps| - 1]);
    }
  }

  lemma ReachableInv(env: Env, u: Upload)
    requires ValidEnv(env) && Reachable(env, u)
    ensures Inv(u)
  {
    var first, steps :| Initial(first) && u == Run(env, first, steps);
    RunKeeps(env, first, steps);
  }

  // ---------------------------------------------------------------- theorems

  /**
   In every reachable state: no OTA call ever named a handle that was not open (so no handle is
   ended or aborted twice), none was begun while another was open, and the staging index is inside
   the buffer.
   */
  lemma HandleSafety(env: Env, u: Upload)
    requires ValidEnv(env) && Reachable(env, u)
    ensures !u.s.w.ota.misused && |u.s.l.staged| < LOADER_CHUNK_LEN
    ensures u.s.w.ota.open.Keys == if u.s.l.handle.Some? then {u.s.l.handle.value} else {}
  {
    ReachableInv(env, u);
  }

  /**
   Whatever step changes the boot slot or asks for a restart is the end of an "ota" upload: the
   image made the boot slot is exactly the bytes sent since its start, and the result is Ok.
   */
  lemma BootOnlyAfterWholeImage(env: Env, u: Upload, step: Step)
    requires ValidEnv(env) && Reachable(env, u)
    ensures var v := Apply(env, u, step);
      v.s.w.ota.boot != u.s.w.ota.boot || v.s.l.restart != u.s.l.restart ==>
        && step.Finish? && u.s.l.mode == Some(Ota) && End(env, u.s).1 == Ok
        && v.s.w.ota.boot == Some(u.sent) && v.s.l.restart
  {
    ReachableInv(env, u);
    match step
    case Begin(mode, len) => StartKeeps(env, u, mode, len);
    case Data(bytes) => FeedOnlyLoads(env, u.s, bytes);
    case Finish =>
      FlushKeepsMode(env, u.s);
      if u.s.l.mode == Some(Ota) { EndOta(env, u); }
  }

  /** The end of an "ota" upload: Ok means the boot slot is exactly what was sent. */
  lemma EndOta(env: Env, u: Upload)
    requires Inv(u) && u.s.l.mode == Some(Ota)
    ensures var (t, ret) := End(env, u.s);
      if ret == Ok then t.w.ota.boot == Some(u.sent) && t.l.restart
      else t.w.ota.boot == u.s.w.ota.boot && t.l.restart == u.s.l.restart
  {
    FlushKeeps(env, u);
    FlushKeepsMode(env, u.s);
    var t := Flush(env, u.s);
    assert t.w.ota.open[t.l.handle.value] + [] == t.w.ota.open[t.l.handle.value];
  }

  /** The end of a "pkg" upload: Ok means flash holds what was sent, each byte erased first and written once. */
  lemma EndPkg(env: Env, u: Upload)
    requires Inv(u) && u.s.l.mode == Some(Pkg) && |u.sent| <= u.region
    ensures var (t, ret) := End(env, u.s);
      ret == Ok ==> InFlash(t.w.flash, u.sent, |u.sent|, u.region, u.before) && t.l.pkgUpdated
  {
    FlushKeeps(env, u);
    FlushKeepsMode(env, u.s);
  }

  lemma StartedPkg(env: Env, s: State, len: nat)
    requires ValidEnv(env)
    ensures var (t, size) := Start(env, s, Pkg, len);
      (t.l.mode == Some(Pkg) <==> size > 0) && (t.l.mode.Some? ==> t.l.mode == Some(Pkg))
  {
  }

  /**
   When a start is accepted, and the size it reports: the partition's, once the package is known to
   fit it and the whole sectors it needs are erased; the OTA slot's, once the image is known to fit
   and a handle was given.
   */
  lemma StartAccepts(env: Env, s: State, len: nat, region: nat)
    requires ValidEnv(env) && WholeSectors(region, len, env.eraseSize)
    ensures var size := Start(env, s, Pkg, len).1;
      && (size == 0 || size == |s.w.flash|)
      && (Start(env, s, Pkg, len).0.l.partition <==> region <= |s.w.flash| && env.ok(s.w.tick) && env.ok(s.w.tick + 1))
      && (size > 0 <==> |s.w.flash| > 0 && region <= |s.w.flash| && env.ok(s.w.tick) && env.ok(s.w.tick + 1))
    ensures var size := Start(env, s, Ota, len).1;
      && (size == 0 || size == env.otaSize)
      && (size > 0 <==> env.otaSize > 0 && len <= env.otaSize && env.ok(s.w.tick) && env.ok(s.w.tick + 1))
    ensures Start(env, s, Other, len).1 == 0
  {
    RegionIsRoundUp(region, len, env.eraseSize);
  }

  /** An end that reports Ok ends an upload of a known mode. */
  lemma EndNeedsMode(env: Env, s: State)
    ensures End(env, s).1 == Ok ==> s.l.mode == Some(Pkg) || s.l.mode == Some(Ota)
  {
    FlushKeepsMode(env, s);
  }

  /** What an end reports when it does not succeed, by mode; and that it leaves no upload behind. */
  lemma EndResult(env: Env, u: Upload)
    requires Inv(u)
    ensures var (t, ret) := End(env, u.s);
      && (u.s.l.mode == Some(Ota) ==> ret == Ok || ret == Aborted)
      && (u.s.l.mode != Some(Ota) ==> ret == Ok || ret == NotEnoughSpace)
      && t.l.mode.None? && t.l.staged == []
      && (u.s.l.mode == Some(Pkg) ==> !t.l.partition) && (u.s.l.mode == Some(Ota) ==> t.w.ota.open == map[])
      && (t.l.pkgUpdated != u.s.l.pkgUpdated ==> ret == Ok && u.s.l.mode == Some(Pkg))
  {
    FlushKeeps(env, u);
    FlushKeepsMode(env, u.s);
  }

  /**
   A whole "pkg" upload from any reachable state, split into any data calls, no longer than the whole
   sectors that were erased for it: if the end reports Ok, the partition starts with exactly the bytes sent, each
   of them erased first and written once; the rest of the erased sectors is blank and everything
   beyond them is as it was.
   */
  lemma PkgUpload(env: Env, u: Upload, len: nat, region: nat, calls: seq<Image>)
    requires ValidEnv(env) && Reachable(env, u)
    requires WholeSectors(region, len, env.eraseSize) && |Flatten(calls)| <= region
    ensures var started := Start(env, u.s, Pkg, len).0;
      var (t, ret) := End(env, FeedAll(env, started, calls));
      ret == Ok ==>
        InFlash(t.w.flash, Flatten(calls), |Flatten(calls)|, region, u.s.w.flash) && t.l.pkgUpdated
  {
    ReachableInv(env, u);
    RegionIsRoundUp(region, len, env.eraseSize);
    var bytes := Flatten(calls);
    var started := Apply(env, u, Begin(Pkg, len));
    StartKeeps(env, u, Pkg, len);
    StartedPkg(env, u.s, len);
    FeedAllIsFeed(env, started.s, calls);
    FeedKeeps(env, started, bytes);
    FeedOnlyLoads(env, started.s, bytes);
    assert [] + bytes == bytes;
    var fed := started.(s := Feed(env, started.s, bytes), sent := started.sent + bytes);
    if End(env, fed.s).1 == Ok {
      EndNeedsMode(env, fed.s);
      EndPkg(env, fed);
    }
  }

  // ---------------------------------------------------------------- when something fails

  /** Handing on an empty staging buffer calls nothing. */
  lemma FlushOfNothing(env: Env, s: State)
    requires s.l.staged == []
    ensures Flush(env, s) == s
  {
  }

  /** Once a write has failed, nothing more of the upload reaches flash or the OTA service. */
  lemma {:induction false} FailedUploadStops(env: Env, s: State, bytes: Image)
    requires s.l.failed
    ensures var t := Feed(env, s, bytes); t.w == s.w && t.l.(staged := s.l.staged) == s.l
  {
    if bytes != [] { FailedUploadStops(env, s, bytes[..|bytes| - 1]); }
  }

  /** And it ends without success: a "pkg" leaves the partition alone, an "ota" gives its handle back. */
  lemma FailedUploadEnds(env: Env, u: Upload)
    requires Inv(u) && u.s.l.failed
    ensures var (t, ret) := End(env, u.s);
      && ret != Ok && t.w.flash == u.s.w.flash && t.w.ota.slot == u.s.w.ota.slot && t.w.ota.boot == u.s.w.ota.boot
      && (u.s.l.mode == Some(Ota) ==> t.w.ota.open == map[])
  {
    EndResult(env, u);
  }

  // ---------------------------------------------------------------- when nothing fails

  ghost predicate NothingFails(env: Env) {
    forall t :: env.ok(t)
  }

  /** An accepted upload in progress that has not failed and stays within the erased region. */
  predicate Healthy(u: Upload) {
    !u.s.l.failed && u.s.l.mode.Some? && (u.s.l.mode == Some(Pkg) ==> |u.sent| <= u.region)
  }

  lemma FlushSucceeds(env: Env, u: Upload)
    requires NothingFails(env) && Flushable(u) && Healthy(u)
    ensures !Flush(env, u.s).l.failed
  {
    assert env.ok(u.s.w.tick);
  }

  lemma {:induction false} FeedSucceeds(env: Env, u: Upload, bytes: Image)
    requires NothingFails(env) && Inv(u) && Healthy(u)
    requires u.s.l.mode == Some(Pkg) ==> |u.sent| + |bytes| <= u.region
    ensures Healthy(u.(s := Feed(env, u.s, bytes), sent := u.sent + bytes))
  {
    if bytes != [] {
      var init, byte := bytes[..|bytes| - 1], bytes[|bytes| - 1];
      FeedSucceeds(env, u, init);
      FeedKeeps(env, u, init);
      FeedOnlyLoads(env, u.s, bytes);
      var fed := u.(s := Feed(env, u.s, init), sent := u.sent + init);
      StageKeeps(fed, byte);
      var l := fed.s.l.(staged := fed.s.l.staged + [byte]);
      FlushSucceeds(env, fed.(s := fed.s.(l := l), sent := fed.sent + [byte]));
    }
  }

  lemma EndSucceeds(env: Env, u: Upload)
    requires NothingFails(env) && Inv(u) && Healthy(u) && (u.s.l.mode == Some(Pkg) || u.s.l.mode == Some(Ota))
    ensures End(env, u.s).1 == Ok
  {
    FlushSucceeds(env, u);
    FlushKeeps(env, u);
    FlushKeepsMode(env, u.s);
    var t := Flush(env, u.s);
    if t.l.mode == Some(Ota) {
      assert t.l.handle.value in t.w.ota.open.Keys;
      assert env.ok(t.w.tick) && env.ok(t.w.tick + 1);
    }
  }

  /** When no foreign call fails, an accepted upload of either kind, split in any way, ends with Ok. */
  lemma UploadSucceeds(env: Env, u: Upload, mode: Mode, len: nat, region: nat, calls: seq<Image>)
    requires ValidEnv(env) && NothingFails(env) && Reachable(env, u) && WholeSectors(region, len, env.eraseSize)
    requires mode == Pkg ==> |Flatten(calls)| <= region
    requires Start(env, u.s, mode, len).1 > 0
    ensures End(env, FeedAll(env, Start(env, u.s, mode, len).0, calls)).1 == Ok
  {
    ReachableInv(env, u);
    RegionIsRoundUp(region, len, env.eraseSize);
    var bytes := Flatten(calls);
    var started := Apply(env, u, Begin(mode, len));
    StartKeeps(env, u, mode, len);
    StartedHealthy(env, u.s, mode, len);
    FeedAllIsFeed(env, started.s, calls);
    FeedKeeps(env, started, bytes);
    FeedSucceeds(env, started, bytes);
    FeedOnlyLoads(env, started.s, bytes);
    EndSucceeds(env, started.(s := Feed(env, started.s, bytes), sent := started.sent + bytes));
  }

  lemma StartedHealthy(env: Env, s: State, mode: Mode, len: nat)
    requires ValidEnv(env) && Start(env, s, mode, len).1 > 0
    ensures var t := Start(env, s, mode, len).0; !t.l.failed && t.l.mode == Some(mode) && mode != Other
  {
  }
}
