/** The loader's methods of `CommandListener` (src/command_listener.rs), over its own fields. */
module Loader {
  import opened Prelude
  import opened LoaderModel

  class CommandListener {
    const env: Env
    const loaderBuf: array<Cell>
    var loaderBufLen: nat
    var loaderFailed: bool
    var loaderMode: Option<Mode>
    var pkgWritten: nat
    var pkgPartition: bool
    var ota: Option<nat>
    var pkgUpdated: bool
    var restart: bool
    /** What the foreign calls act on. */
    var world: World

    ghost predicate Valid()
      reads this
    {
      ValidEnv(env) && loaderBuf.Length == LOADER_CHUNK_LEN && loaderBufLen < LOADER_CHUNK_LEN
    }

    ghost function StateOf(): State
      requires loaderBufLen <= loaderBuf.Length
      reads this, loaderBuf
    {
      State(Listener(loaderBuf[..loaderBufLen], loaderFailed, loaderMode, pkgWritten, pkgPartition, ota,
                     pkgUpdated, restart), world)
    }

    constructor New(env: Env, world: World)
      requires ValidEnv(env)
      ensures Valid() && fresh(loaderBuf) && this.env == env
      ensures StateOf() == State(Listener([], false, None, 0, false, None, false, false), world)
    {
      this.env := env;
      this.world := world;
      loaderBuf := new Cell[LOADER_CHUNK_LEN](_ => 0);
      loaderBufLen := 0;
      loaderFailed := false;
      loaderMode := None;
      pkgWritten := 0;
      pkgPartition := false;
      ota := None;
      pkgUpdated := false;
      restart := false;
    }

    method PkgStartUpload(len: nat) returns (size: nat)
      requires Valid()
      modifies this
      ensures Valid() && (StateOf(), size) == PkgStart(env, old(StateOf()), len)
    {
      pkgWritten := 0;
      pkgPartition := false;
      var (w, found) := Ask(env, world);
      world := w;
      if !found { return 0; }
      size := |world.flash|;
      if len > size { return 0; }
      var eraseLen := (len + env.eraseSize - 1) / env.eraseSize * env.eraseSize;
      var (w', erased) := Erase(env, world, eraseLen);
      world := w';
      if !erased { return 0; }
      pkgPartition := true;
    }

    method PkgWriteChunk(len: nat) returns (ok: bool)
      requires Valid() && loaderBufLen == 0 && len <= LOADER_CHUNK_LEN
      modifies this
      ensures Valid() && (StateOf(), ok) == PkgWrite(env, old(StateOf()), old(loaderBuf[..len]))
    {
      if !pkgPartition { return false; }
      var (w, written) := Write(env, world, pkgWritten, loaderBuf[..len]);
      world := w;
      if !written { return false; }
      pkgWritten := pkgWritten + len;
      ok := true;
    }

    method PkgEndUpload() returns (ret: LoaderRet)
      requires Valid()
      modifies this
      ensures Valid() && (StateOf(), ret) == PkgEnd(old(StateOf()))
    {
      var partition := pkgPartition;
      pkgPartition := false;
      if !partition || loaderFailed { return NotEnoughSpace; }
      pkgUpdated := true;
      ret := Ok;
    }

    method OtaStartUpload(len: nat) returns (size: nat)
      requires Valid()
      modifies this
      ensures Valid() && (StateOf(), size) == OtaStart(env, old(StateOf()), len)
    {
      var (w, found) := Ask(env, world);
      world := w;
      if !found { return 0; }
      if len > env.otaSize { return 0; }
      var (w', handle) := OtaBegin(env, world);
      world := w';
      if handle.None? { return 0; }
      ota := handle;
      size := env.otaSize;
    }

    method OtaWriteChunk(len: nat) returns (ok: bool)
      requires Valid() && loaderBufLen == 0 && len <= LOADER_CHUNK_LEN
      modifies this
      ensures Valid() && (StateOf(), ok) == OtaWrite(env, old(StateOf()), old(loaderBuf[..len]))
    {
      if ota.None? { return false; }
      var (w, written) := OtaServiceWrite(env, world, ota.value, loaderBuf[..len]);
      world := w;
      ok := written;
    }

    method OtaEndUpload() returns (ret: LoaderRet)
      requires Valid()
      modifies this
      ensures Valid() && (StateOf(), ret) == OtaEnd(env, old(StateOf()))
    {
      if ota.None? { return Aborted; }
      var handle := ota.value;
      ota := None;
      if loaderFailed {
        world := OtaAbort(world, handle);
        return Aborted;
      }
      var (w, verified) := OtaServiceEnd(env, world, handle);
      world := w;
      if !verified { return Aborted; }
      var (w', booted) := SetBoot(env, world);
      world := w';
      if !booted { return Aborted; }
      restart := true;
      ret := Ok;
    }

    method LoaderFlush()
      requires ValidEnv(env) && loaderBuf.Length == LOADER_CHUNK_LEN && loaderBufLen <= LOADER_CHUNK_LEN
      modifies this
      ensures Valid() && loaderBufLen == 0 && StateOf() == Flush(env, old(StateOf()))
    {
      var len := loaderBufLen;
      loaderBufLen := 0;
      assert loaderBuf[..0] == [];
      if len == 0 || loaderFailed { return; }
      var ok := true;
      if loaderMode == Some(Pkg) {
        ok := PkgWriteChunk(len);
      } else if loaderMode == Some(Ota) {
        ok := OtaWriteChunk(len);
      }
      if !ok { loaderFailed := true; }
    }

    /** The first part of `process_loader_start`: whatever an unfinished upload left is dropped. */
    method Release()
      requires Valid()
      modifies this
      ensures Valid() && StateOf() == Released(old(StateOf())) && loaderMode == old(loaderMode)
    {
      if ota.Some? { world := OtaAbort(world, ota.value); }
      ota := None;
      loaderBufLen := 0;
      assert loaderBuf[..0] == [];
      loaderFailed := false;
    }

    /** `process_loader_start`. */
    method ProcessLoaderStart(mode: Mode, len: nat) returns (size: nat)
      requires Valid()
      modifies this
      ensures Valid() && (StateOf(), size) == Start(env, old(StateOf()), mode, len)
    {
      Release();
      match mode {
        case Pkg => size := PkgStartUpload(len);
        case Ota => size := OtaStartUpload(len);
        case Other => size := 0;
      }
      loaderMode := if size > 0 then Some(mode) else None;
    }

    /** `process_loader_data`: the staging index stays inside the buffer throughout. */
    method ProcessLoaderData(buf: seq<Cell>)
      requires Valid()
      modifies this, loaderBuf
      ensures Valid() && StateOf() == Feed(env, old(StateOf()), buf)
    {
      for i := 0 to |buf|
        invariant Valid() && StateOf() == Feed(env, old(StateOf()), buf[..i])
      {
        StageByte(buf[i]);
        assert buf[..i + 1][..i] == buf[..i];
      }
      assert buf[..|buf|] == buf;
    }

    method StageByte(byte: Cell)
      requires Valid()
      modifies this, loaderBuf
      ensures Valid() && StateOf() == FeedByte(env, old(StateOf()), byte)
    {
      ghost var staged := loaderBuf[..loaderBufLen];
      loaderBuf[loaderBufLen] := byte;
      loaderBufLen := loaderBufLen + 1;
      assert loaderBuf[..loaderBufLen] == staged + [byte];
      if loaderBufLen == LOADER_CHUNK_LEN { LoaderFlush(); }
    }

    /** `process_loader_end`. */
    method ProcessLoaderEnd() returns (ret: LoaderRet)
      requires Valid()
      modifies this
      ensures Valid() && (StateOf(), ret) == End(env, old(StateOf()))
    {
      LoaderFlush();
      var mode := loaderMode;
      loaderMode := None;
      if mode == Some(Pkg) {
        ret := PkgEndUpload();
      } else if mode == Some(Ota) {
        ret := OtaEndUpload();
      } else {
        ret := NotEnoughSpace;
      }
    }
  }
}
