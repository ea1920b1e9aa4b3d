/**
 What every interleaving of commands, registration attempts, client polls and restarts keeps, from
 an empty store: credentials belong to the current host, a code comes with a name, and no more
 requests are made than codes were accepted.
 */
module RegistrationProofs {
  import opened Prelude
  import opened Text
  import opened RegistrationModel

  /** What can happen, in any order. A lap's `answer` is what the 256-byte read of the response gives. */
  datatype Step =
    | Line(line: string)
    | Attempt(answer: Option<string>, opens: bool)
    | PollStep(pingOk: bool)
    | CloseClient
    | Reboot

  /** The device with its history: every credential issued, by which host; requests made; codes accepted. */
  datatype Run = Run(d: Device, issued: set<Client>, requests: nat, accepted: nat)

  predicate Possible(step: Step) {
    step.Attempt? && step.answer.Some? ==> Utf8Len(step.answer.value) <= 256
  }

  predicate AcceptsCode(d: Device, step: Step) {
    step.Line? && Words(step.line).0 == "reg" && ProcessLine(d, step.line).1 == Ok
  }

  predicate IsFactory(step: Step) {
    step.Line? && Words(step.line).0 == "factory"
  }

  function Apply(r: Run, step: Step): Run {
    match step
    case Line(line) =>
      r.(d := ProcessLine(r.d, line).0, accepted := r.accepted + if AcceptsCode(r.d, step) then 1 else 0)
    case Attempt(answer, opens) => if r.d.client.Some? then r else ApplyLap(r, answer, opens)
    case PollStep(pingOk) => r.(d := Poll(r.d, pingOk))
    case CloseClient => r.(d := r.d.(client := None))
    case Reboot => r.(d := Device(r.d.nvs, false, NoCode, None, None))
  }

  function ApplyLap(r: Run, answer: Option<string>, opens: bool): Run {
    var (d, outcome) := Lap(r.d, answer, opens);
    var asked := Requests(r.d.nvs);
    var news := if asked && outcome.Credentials?
                then {Client(ReadCloudHost(r.d.nvs), outcome.id, outcome.secret)} else {};
    Run(d, r.issued + news, r.requests + if asked then 1 else 0, r.accepted)
  }

  function RunAll(r: Run, steps: seq<Step>): Run {
    if steps == [] then r else Apply(RunAll(r, steps[..|steps| - 1]), steps[|steps| - 1])
  }

  /** A device that was never set up. */
  const FRESH := Run(Device(map[], false, NoCode, None, None), {}, 0, 0)

  ghost predicate Reachable(r: Run) {
    exists steps :: (forall s | s in steps :: Possible(s)) && r == RunAll(FRESH, steps)
  }

  // ---------------------------------------------------------------- the invariant

  /** The stored credentials, with the host they would be used with. */
  function Held(nvs: Nvs): Option<Client> {
    if DeviceId in nvs && DeviceSecret in nvs
    then Some(Client(ReadCloudHost(nvs), nvs[DeviceId], nvs[DeviceSecret])) else None
  }

  predicate HasRealCode(nvs: Nvs) {
    RegistrationCode in nvs && nvs[RegistrationCode] != REJECTED
  }

  /** Code and name came as fields of a line: nothing to trim, and no comma. */
  predicate FieldInv(nvs: Nvs) {
    && (RegistrationCode in nvs ==> IsField(nvs[RegistrationCode], ','))
    && (DeviceName in nvs ==> IsField(nvs[DeviceName], ','))
  }

  predicate CodeInv(nvs: Nvs) {
    && (HasRealCode(nvs) ==> ValidCode(nvs[RegistrationCode]) && DeviceName in nvs)
    && (DeviceName in nvs ==> ValidName(nvs[DeviceName]))
    && (RegistrationCode in nvs && nvs[RegistrationCode] == REJECTED ==> DeviceId !in nvs && DeviceSecret !in nvs)
  }

  predicate Short(nvs: Nvs, key: Key) {
    key in nvs ==> Utf8Len(nvs[key]) < 256
  }

  predicate CredentialInv(nvs: Nvs, issued: set<Client>) {
    && (DeviceId in nvs <==> DeviceSecret in nvs)
    && (Held(nvs).Some? ==> Held(nvs).value in issued)
    && Short(nvs, DeviceId) && Short(nvs, DeviceSecret)
  }

  predicate ClientInv(d: Device, issued: set<Client>) {
    d.client.Some? ==>
      d.client.value in issued && d.registration == Registered && (!d.reregister ==> Held(d.nvs) == d.client)
  }

  /** The name shown is the name stored. */
  predicate NameInv(d: Device) {
    d.deviceName.Some? ==> DeviceName in d.nvs && d.nvs[DeviceName] == d.deviceName.value
  }

  predicate CountInv(r: Run) {
    r.requests + (if HasRealCode(r.d.nvs) then 1 else 0) <= r.accepted
  }

  predicate Inv(r: Run) {
    CodeInv(r.d.nvs) && CredentialInv(r.d.nvs, r.issued) && ClientInv(r.d, r.issued) && NameInv(r.d) && CountInv(r)
  }

  // ---------------------------------------------------------------- lengths of what the server sends

  lemma {:induction false} TrimShortens(s: string)
    ensures Utf8Len(TrimStart(s)) <= Utf8Len(s) && Utf8Len(TrimEnd(s)) <= Utf8Len(s)
  {
    if s != "" {
      Utf8LenConcat([s[0]], s[1..]);
      assert [s[0]] + s[1..] == s;
      TrimShortens(s[1..]);
      TrimShortens(s[..|s| - 1]);
    }
  }

  lemma {:induction false} PartShorter(s: string, sep: char, i: nat)
    requires i < |Split(s, sep)|
    ensures Utf8Len(Split(s, sep)[i]) <= Utf8Len(s)
  {
    if s != "" {
      var rest := Split(s[1..], sep);
      Utf8LenConcat([s[0]], s[1..]);
      assert [s[0]] + s[1..] == s;
      if s[0] == sep {
        if i > 0 { PartShorter(s[1..], sep, i - 1); }
      } else if i == 0 {
        PartShorter(s[1..], sep, 0);
        Utf8LenConcat([s[0]], rest[0]);
      } else {
        PartShorter(s[1..], sep, i);
      }
    }
  }

  /** Parts after a comma are shorter than the whole by what comes before it. */
  lemma {:induction false} LaterPartShorter(s: string, sep: char, i: nat)
    requires 0 < i < |Split(s, sep)|
    ensures Utf8Len(Split(s, sep)[i]) < Utf8Len(s)
  {
    if s != "" {
      Utf8LenConcat([s[0]], s[1..]);
      assert [s[0]] + s[1..] == s;
      if s[0] == sep { PartShorter(s[1..], sep, i - 1); } else { LaterPartShorter(s[1..], sep, i); }
    }
  }

  /** Whatever the server issues can be read back from the store. */
  lemma IssuedIsShort(body: string)
    requires Utf8Len(body) <= 256
    ensures ParseResponse(body).Some? ==>
      Utf8Len(ParseResponse(body).value.0) < 256 && Utf8Len(ParseResponse(body).value.1) < 256
  {
    if ParseResponse(body).Some? {
      TrimShortens(body);
      TrimShortens(TrimStart(body));
      LaterPartShorter(Trim(body), ',', 1);
      LaterPartShorter(Trim(body), ',', 2);
    }
  }

  // ---------------------------------------------------------------- each step keeps it

  lemma RejectedIsNoCode()
    ensures !ValidCode(REJECTED)
  {
    assert REJECTED[..0] == "";
  }

  lemma RegKeeps(r: Run, code: string, name: string)
    requires Inv(r) && ValidCode(code) && ValidName(name)
    ensures Inv(r.(d := Reg(r.d, code, name).0, accepted := r.accepted + 1))
  {
    RejectedIsNoCode();
  }

  lemma RenameKeeps(r: Run, name: string)
    requires Inv(r)
    ensures Inv(r.(d := Rename(r.d, name).0))
  {
  }

  lemma HostKeeps(r: Run, host: string)
    requires Inv(r)
    ensures Inv(r.(d := SetHost(r.d, host).0))
  {
  }

  lemma FactoryKeeps(r: Run)
    requires Inv(r)
    ensures Inv(r.(d := Factory(r.d)))
  {
  }

  lemma LineKeeps(r: Run, line: string)
    requires Inv(r)
    ensures Inv(Apply(r, Line(line)))
  {
    var (command, arg0, arg1) := Words(line);
    if command == "reg" {
      if ValidCode(arg0) && ValidName(arg1) { RegKeeps(r, arg0, arg1); }
    } else if command == "name" {
      RenameKeeps(r, arg0);
    } else if command == "host" {
      HostKeeps(r, arg0);
    } else if command == "factory" {
      FactoryKeeps(r);
    }
  }

  /** In a state of the invariant every read that matters succeeds, and a code has its name. */
  lemma ReadsSucceed(nvs: Nvs, issued: set<Client>)
    requires CodeInv(nvs) && CredentialInv(nvs, issued)
    ensures GetStr(nvs, RegistrationCode, 64) != TooLong && GetStr(nvs, DeviceName, 128) != TooLong
    ensures GetStr(nvs, DeviceId, 256) != TooLong && GetStr(nvs, DeviceSecret, 256) != TooLong
    ensures Requests(nvs) <==> HasRealCode(nvs)
  {
    assert REJECTED[..0] == "";
  }

  lemma RegisterKeeps(r: Run, name: string, answer: Option<string>, opens: bool)
    requires Inv(r) && HasRealCode(r.d.nvs) && r.d.client.None?
    requires answer.Some? ==> Utf8Len(answer.value) <= 256
    ensures Inv(ApplyLap(r, answer, opens))
  {
    ReadsSucceed(r.d.nvs, r.issued);
    if answer.Some? { IssuedIsShort(answer.value); }
  }

  lemma StoredKeeps(r: Run, answer: Option<string>, opens: bool)
    requires Inv(r) && !HasRealCode(r.d.nvs) && r.d.client.None?
    ensures Inv(ApplyLap(r, answer, opens))
  {
    ReadsSucceed(r.d.nvs, r.issued);
  }

  lemma StepKeeps(r: Run, step: Step)
    requires Inv(r) && Possible(step)
    ensures Inv(Apply(r, step))
  {
    match step
    case Line(line) => LineKeeps(r, line);
    case Attempt(answer, opens) =>
      if r.d.client.None? {
        if HasRealCode(r.d.nvs) {
          RegisterKeeps(r, r.d.nvs[DeviceName], answer, opens);
        } else {
          StoredKeeps(r, answer, opens);
        }
      }
    case _ =>
  }

  lemma {:induction false} RunKeeps(r: Run, steps: seq<Step>)
    requires Inv(r) && forall s | s in steps :: Possible(s)
    ensures Inv(RunAll(r, steps))
  {
    if steps != [] {
      RunKeeps(r, steps[..|steps| - 1]);
      StepKeeps(RunAll(r, steps[..|steps| - 1]), steps[|steps| - 1]);
    }
  }

  lemma ReachableInv(r: Run)
    requires Reachable(r)
    ensures Inv(r)
  {
    var steps :| (forall s | s in steps :: Possible(s)) && r == RunAll(FRESH, steps);
    RunKeeps(FRESH, steps);
  }

  // ---------------------------------------------------------------- theorems

  /**
   The stored credentials were issued by the host that is read now, and so were those of every open
   client by its own host; unless a reregistration is pending, the client uses what is stored.
   */
  lemma CredentialsMatchHost(r: Run)
    requires Reachable(r)
    ensures DeviceId in r.d.nvs && DeviceSecret in r.d.nvs ==>
      Client(ReadCloudHost(r.d.nvs), r.d.nvs[DeviceId], r.d.nvs[DeviceSecret]) in r.issued
    ensures r.d.client.Some? ==> r.d.client.value in r.issued
    ensures r.d.client.Some? && !r.d.reregister ==> Held(r.d.nvs) == r.d.client
  {
    ReachableInv(r);
  }

  /** What is reported: an open client means Registered, and a name reported is the one stored. */
  lemma StatusIsTrue(r: Run)
    requires Reachable(r)
    ensures r.d.client.Some? ==> r.d.registration == Registered
    ensures r.d.deviceName.Some? ==> DeviceName in r.d.nvs && r.d.nvs[DeviceName] == r.d.deviceName.value
  {
    ReachableInv(r);
  }

  /**
   An accepted "#reg" takes effect: the next pass over an open client closes it, and the next attempt
   asks the server, under the new name, whatever was stored before.
   */
  lemma NewCodeIsUsed(r: Run, line: string, answer: Option<string>, opens: bool)
    requires Reachable(r) && AcceptsCode(r.d, Line(line))
    ensures var (_, code, name) := Words(line);
      var polled := Apply(Apply(r, Line(line)), PollStep(true));
      && polled.d.client.None?
      && polled.d.nvs[RegistrationCode := code][DeviceName := name] == polled.d.nvs
      && polled.d.deviceName == Some(name)
      && Apply(polled, Attempt(answer, opens)).requests == r.requests + 1
  {
    ReachableInv(r);
    LineKeeps(r, line);
    RejectedIsNoCode();
    var noted := Apply(r, Line(line));
    ReadsSucceed(noted.d.nvs, noted.issued);
  }

  /** A factory reset leaves nothing: the default host, no name, and an attempt finds no code. */
  lemma FactoryForgets(d: Device, answer: Option<string>, opens: bool)
    ensures var f := Factory(d);
      && f.nvs == map[] && ReadCloudHost(f.nvs) == DEFAULT_CLOUD_HOST && Held(f.nvs).None? && !Requests(f.nvs)
      && f.deviceName.None? && f.reregister && Lap(f, answer, opens).1 == MissingCode
  {
    var f := Factory(d);
    forall key: Key ensures key !in f.nvs {
      match key case RegistrationCode => case DeviceName => case DeviceId => case DeviceSecret => case CloudHost =>
    }
  }

  /** An accepted "#name" changes the name, and nothing else that is stored. */
  lemma RenameOnlyRenames(d: Device, name: string)
    requires ValidName(name)
    ensures var (e, ret) := Rename(d, name);
      && ret == Ok && e.nvs == d.nvs[DeviceName := name] && GetStr(e.nvs, DeviceName, 128) == Value(name)
      && e.deviceName == Some(name) && Held(e.nvs) == Held(d.nvs) && e.reregister == d.reregister
      && e.client == d.client && e.registration == d.registration
  {
  }

  /** A real code always comes with a valid name, so the branch that clears a stray code is never taken. */
  lemma NoStrayCode(r: Run)
    requires Reachable(r)
    ensures HasRealCode(r.d.nvs) ==>
      ValidCode(r.d.nvs[RegistrationCode]) && DeviceName in r.d.nvs && ValidName(r.d.nvs[DeviceName])
    ensures Requests(r.d.nvs) <==> HasRealCode(r.d.nvs)
  {
    ReachableInv(r);
    ReadsSucceed(r.d.nvs, r.issued);
  }

  /** Each request spends a code that an accepted "#reg" stored: there are never more of them. */
  lemma RequestsAreBounded(r: Run)
    requires Reachable(r)
    ensures r.requests <= r.accepted
  {
    ReachableInv(r);
  }

  /**
   A pass over a client keeps it exactly if the ping went through and nothing asks for a new
   registration; what is stored is never touched.
   */
  lemma ClientIsKept(d: Device, pingOk: bool)
    requires d.client.Some?
    ensures var e := Poll(d, pingOk);
      && (e.client == d.client <==> pingOk && !d.reregister) && (e.client != d.client ==> e.client.None?)
      && e.nvs == d.nvs && e.deviceName == d.deviceName && (e.reregister <==> d.reregister && !pingOk)
      && e.registration == if pingOk && d.reregister then Registering else d.registration
  {
  }

  /** A device whose store holds a code without a valid name, however that came about, recovers: the code is cleared. */
  lemma StrayCodeIsCleared(d: Device, answer: Option<string>, opens: bool)
    requires HasRealCode(d.nvs) && Utf8Len(d.nvs[RegistrationCode]) < 64
    requires DeviceName in d.nvs ==> Utf8Len(d.nvs[DeviceName]) < 128 && !ValidName(d.nvs[DeviceName])
    ensures var (e, outcome) := Lap(d, answer, opens);
      outcome == MissingCode && e.registration == NoCode && e.nvs == d.nvs - {RegistrationCode}
  {
  }

  /** What an attempt reports: registered with credentials, no code if none is stored, else failed. */
  lemma AttemptStatus(r: Run, answer: Option<string>, opens: bool)
    requires Reachable(r) && r.d.client.None?
    ensures var (e, outcome) := Lap(r.d, answer, opens);
      && (e.registration == Registered <==> outcome.Credentials?)
      && (e.registration == NoCode <==> RegistrationCode !in r.d.nvs && DeviceId !in r.d.nvs)
      && (e.registration == Failed <==> outcome == RejectedCode || outcome == RegisterFailed)
      && e.reregister == r.d.reregister && (!outcome.Credentials? || !opens ==> e.client.None?)
  {
    AttemptOutcome(r, answer, opens);
  }

  /** What an attempt makes of a reachable state, whatever the server answers. */
  lemma AttemptOutcome(r: Run, answer: Option<string>, opens: bool)
    requires Reachable(r)
    ensures var nvs, outcome := r.d.nvs, Lap(r.d, answer, opens).1;
      && (outcome == MissingCode <==> RegistrationCode !in nvs && DeviceId !in nvs)
      && (outcome == RejectedCode <==> RegistrationCode in nvs && nvs[RegistrationCode] == REJECTED)
      && (outcome.RegisterFailed? <==>
            HasRealCode(nvs) && (answer.None? || ParseResponse(answer.value).None?))
  {
    ReachableInv(r);
    ReadsSucceed(r.d.nvs, r.issued);
  }

  predicate IsRejected(r: Run) {
    RegistrationCode in r.d.nvs && r.d.nvs[RegistrationCode] == REJECTED
  }

  lemma RejectedStep(r: Run, step: Step)
    requires Inv(r) && IsRejected(r) && !AcceptsCode(r.d, step) && !IsFactory(step)
    ensures IsRejected(Apply(r, step))
  {
    match step
    case Line(line) => RejectedIsNoCode();
    case Attempt(answer, opens) => ReadsSucceed(r.d.nvs, r.issued);
    case _ =>
  }

  /** No step of a run from `r` accepts a code or resets the device. */
  predicate Undisturbed(r: Run, steps: seq<Step>) {
    steps == [] ||
    var init, last := steps[..|steps| - 1], steps[|steps| - 1];
    Undisturbed(r, init) && Possible(last) && !AcceptsCode(RunAll(r, init).d, last) && !IsFactory(last)
  }

  lemma {:induction false} RejectedStays(r: Run, steps: seq<Step>)
    requires Inv(r) && IsRejected(r) && Undisturbed(r, steps)
    ensures Inv(RunAll(r, steps)) && IsRejected(RunAll(r, steps))
  {
    if steps != [] {
      var init, last := steps[..|steps| - 1], steps[|steps| - 1];
      RejectedStays(r, init);
      StepKeeps(RunAll(r, init), last);
      RejectedStep(RunAll(r, init), last);
    }
  }

  /**
   After a registration attempt fails, every later attempt reports Rejected and none asks the server
   again, across restarts and any other commands, until a "#reg" is accepted or the device is reset.
   */
  lemma RejectedUntilNewCode(r: Run, failed: Option<string>, steps: seq<Step>, answer: Option<string>, opens: bool)
    requires Reachable(r) && r.d.client.None? && Possible(Attempt(failed, opens))
    requires Lap(r.d, failed, opens).1 == RegisterFailed
    requires Undisturbed(Apply(r, Attempt(failed, opens)), steps)
    ensures var later := RunAll(Apply(r, Attempt(failed, opens)), steps);
      Lap(later.d, answer, opens).1 == RejectedCode && !Requests(later.d.nvs)
  {
    ReachableInv(r);
    AttemptOutcome(r, failed, opens);
    ReadsSucceed(r.d.nvs, r.issued);
    var after := Apply(r, Attempt(failed, opens));
    StepKeeps(r, Attempt(failed, opens));
    RejectedStays(after, steps);
    var later := RunAll(after, steps);
    ReadsSucceed(later.d.nvs, later.issued);
  }

  // ---------------------------------------------------------------- what "#host" does

  /**
   An accepted host is the one that is read from then on exactly when it is at most 127 bytes: one of
   128 bytes is stored, but does not fit the buffer it is read into, so the default is used.
   */
  lemma HostIsUsed(d: Device, host: string)
    requires host != "" && host != DEFAULT_CLOUD_HOST && SetHost(d, host).1 == Ok
    ensures ReadCloudHost(SetHost(d, host).0.nvs) == host <==> Utf8Len(host) <= 127
  {
  }

  /** "#host" without a host goes back to the default, and forgets the credentials of the one before. */
  lemma BlankHostIsDefault(d: Device)
    ensures var (e, ret) := SetHost(d, "");
      ret == Ok && ReadCloudHost(e.nvs) == DEFAULT_CLOUD_HOST && Held(e.nvs).None? && e.reregister
  {
  }

  /** Such a host: 128 letters. */
  lemma HostOf128Bytes(d: Device)
    ensures var host := seq(128, _ => 'h');
      && SetHost(d, host).1 == Ok && CloudHost in SetHost(d, host).0.nvs
      && ReadCloudHost(SetHost(d, host).0.nvs) == DEFAULT_CLOUD_HOST != host
  {
    var host := seq(128, _ => 'h');
    AsciiLen(host);
    assert host[0] == 'h' && DEFAULT_CLOUD_HOST[0] == 'd';
  }

  /** A refused host leaves the host as it was, but the credentials are gone all the same. */
  lemma RefusedHostForgetsCredentials(d: Device, host: string)
    requires Utf8Len(host) > 128
    ensures var (e, ret) := SetHost(d, host);
      ret == MalformedValue && ReadCloudHost(e.nvs) == ReadCloudHost(d.nvs) && Held(e.nvs).None? && e.reregister
  {
  }

  // ---------------------------------------------------------------- what is sent and received

  /** The words of a line that is given field by field, whatever the white space around them. */
  lemma WordsMeaning(fields: seq<string>)
    requires |fields| >= 1 && forall f | f in fields :: ',' !in f
    ensures Words(['#'] + Join(fields, ',')) ==
      (Trim(fields[0]), if |fields| > 1 then Trim(fields[1]) else "", if |fields| > 2 then Trim(fields[2]) else "")
  {
    var line := ['#'] + Join(fields, ',');
    assert line[1..] == Join(fields, ',');
    SplitJoin(fields, ',');
  }

  /** A line that does not start with a hash changes nothing. */
  lemma OtherLinesAreIgnored(d: Device, line: string)
    requires line == "" || line[0] != '#'
    ensures ProcessLine(d, line) == (d, Ok)
  {
  }

  /** "#reg,<code>,<name>" stores its first argument as the code and its second as the name. */
  lemma RegStores(d: Device, code: string, name: string, more: seq<string>)
    requires IsField(code, ',') && IsField(name, ',') && ValidCode(code) && ValidName(name)
    requires forall f | f in more :: ',' !in f
    ensures var (e, ret) := ProcessLine(d, ['#'] + Join(["reg", code, name] + more, ','));
      && ret == Ok && e.nvs == d.nvs[RegistrationCode := code][DeviceName := name]
      && e.deviceName == Some(name) && e.reregister
  {
    WordsMeaning(["reg", code, name] + more);
    TrimTrimmed(code);
    TrimTrimmed(name);
    TrimSpaceless("reg");
  }

  /** "#factory" is accepted, and any other command leaves the keys alone. */
  lemma FactoryAndOthers(d: Device, command: string, more: seq<string>)
    requires IsField(command, ',') && forall f | f in more :: ',' !in f
    ensures var (e, ret) := ProcessLine(d, ['#'] + Join([command] + more, ','));
      && (command == "factory" ==> e == Factory(d) && ret == Ok)
      && (command !in {"reg", "name", "host", "factory"} ==> e == d)
  {
    WordsMeaning([command] + more);
    TrimTrimmed(command);
  }

  /** What the commands accept, in bytes; a value that is refused is not stored. */
  lemma CommandsAccept(d: Device, code: string, name: string, host: string)
    ensures Reg(d, code, name).1 == Ok <==> Utf8Len(code) == 6 && 3 <= Utf8Len(name) <= 64
    ensures Reg(d, code, name).1 != Ok ==> Reg(d, code, name).0 == d
    ensures Rename(d, name).1 == Ok <==> 3 <= Utf8Len(name) <= 64
    ensures Rename(d, name).1 != Ok ==> Rename(d, name).0 == d
    ensures SetHost(d, host).1 == Ok <==> Utf8Len(host) <= 128
    ensures SetHost(d, host).1 != Ok ==> ReadCloudHost(SetHost(d, host).0.nvs) == ReadCloudHost(d.nvs)
  {
    if host != "" { Utf8LenPositive(host); }
  }

  lemma Utf8LenPositive(s: string)
    requires s != ""
    ensures Utf8Len(s) >= 1
  {
  }

  /** "#name,<name>" takes its first argument. */
  lemma NameStores(d: Device, arg: string, more: seq<string>)
    requires IsField(arg, ',') && forall f | f in more :: ',' !in f
    ensures ProcessLine(d, ['#'] + Join(["name", arg] + more, ',')) == Rename(d, arg)
  {
    WordsMeaning(["name", arg] + more);
    TrimTrimmed(arg);
    TrimSpaceless("name");
  }

  /** And so does "#host,<host>". */
  lemma HostStores(d: Device, arg: string, more: seq<string>)
    requires IsField(arg, ',') && forall f | f in more :: ',' !in f
    ensures ProcessLine(d, ['#'] + Join(["host", arg] + more, ',')) == SetHost(d, arg)
  {
    WordsMeaning(["host", arg] + more);
    TrimTrimmed(arg);
    TrimSpaceless("host");
  }

  /**
   Which answers issue which credentials: exactly those that are "#id", the id, the secret and
   anything further, between commas.
   */
  lemma ResponseMeaning(body: string, id: string, secret: string)
    ensures ParseResponse(body) == Some((id, secret)) <==>
      exists more: seq<string> ::
        (forall p | p in ["#id", id, secret] + more :: ',' !in p)
        && Trim(body) == Join(["#id", id, secret] + more, ',')
  {
    var parts := Split(Trim(body), ',');
    SplitChars(Trim(body), ',');
    JoinSplit(Trim(body), ',');
    if ParseResponse(body) == Some((id, secret)) {
      var more := parts[3..];
      assert ["#id", id, secret] + more == parts;
    }
    forall more: seq<string> | (forall p | p in ["#id", id, secret] + more :: ',' !in p)
                               && Trim(body) == Join(["#id", id, secret] + more, ',')
      ensures ParseResponse(body) == Some((id, secret))
    {
      SplitJoin(["#id", id, secret] + more, ',');
    }
  }

  /**
   A code that the server answers with credentials: the id it names is stored as the id and the
   secret as the secret, the code is spent, and the client is opened with exactly those.
   */
  lemma IssuedAreUsed(r: Run, body: string, id: string, secret: string, more: seq<string>, opens: bool)
    requires Reachable(r) && r.d.client.None? && HasRealCode(r.d.nvs)
    requires (forall p | p in ["#id", id, secret] + more :: ',' !in p)
    requires Trim(body) == Join(["#id", id, secret] + more, ',')
    ensures var d := Apply(r, Attempt(Some(body), opens)).d;
      && d.nvs == r.d.nvs[DeviceId := id][DeviceSecret := secret] - {RegistrationCode}
      && d.registration == Registered && d.deviceName == Some(r.d.nvs[DeviceName])
      && d.client == if opens then Some(Client(ReadCloudHost(r.d.nvs), id, secret)) else None
  {
    ReachableInv(r);
    ReadsSucceed(r.d.nvs, r.issued);
    ResponseMeaning(body, id, secret);
  }

  /** And as long as no other code comes, every later attempt opens its client with them again, the server not asked. */
  lemma StoredAreUsedAgain(r: Run, answer: Option<string>)
    requires Reachable(r) && r.d.client.None? && RegistrationCode !in r.d.nvs && DeviceId in r.d.nvs
    ensures DeviceSecret in r.d.nvs
    ensures var after := Apply(r, Attempt(answer, true));
      && after.d.client == Some(Client(ReadCloudHost(r.d.nvs), r.d.nvs[DeviceId], r.d.nvs[DeviceSecret]))
      && after.d.nvs == r.d.nvs && after.requests == r.requests && after.d.registration == Registered
      && after.d.deviceName == (if DeviceName in r.d.nvs then Some(r.d.nvs[DeviceName]) else None)
  {
    ReachableInv(r);
    ReadsSucceed(r.d.nvs, r.issued);
  }

  lemma WordsAreFields(line: string)
    ensures IsField(Words(line).0, ',') && IsField(Words(line).1, ',') && IsField(Words(line).2, ',')
  {
    if line != "" && line[0] == '#' {
      FieldsOf(line[1..], ',');
      var f := TrimAll(Split(line[1..], ','));
      assert f[0] in f && (|f| > 1 ==> f[1] in f) && (|f| > 2 ==> f[2] in f);
    }
  }

  lemma FieldStep(r: Run, step: Step)
    requires FieldInv(r.d.nvs)
    ensures FieldInv(Apply(r, step).d.nvs)
  {
    if step.Line? { WordsAreFields(step.line); }
  }

  lemma {:induction false} FieldRun(steps: seq<Step>)
    ensures FieldInv(RunAll(FRESH, steps).d.nvs)
  {
    if steps != [] {
      FieldRun(steps[..|steps| - 1]);
      FieldStep(RunAll(FRESH, steps[..|steps| - 1]), steps[|steps| - 1]);
    }
  }

  /** The request's text, up to the line end that the device adds. */
  lemma TrimRequest(parts: seq<string>)
    requires |parts| >= 1 && parts[0] != "" && parts[|parts| - 1] != ""
    requires !IsSpace(parts[0][0]) && Trimmed(parts[|parts| - 1])
    ensures Trim(Join(parts, ',') + "\r\n") == Join(parts, ',')
  {
    var text := Join(parts, ',');
    JoinEnds(parts, ',');
    TrimPadded("", text, "\r\n");
    assert "" + text + "\r\n" == text + "\r\n";
  }

  /**
   In every run, a server that reads a registration request as the device reads lines finds the code,
   the MAC address and the name as they are stored, and the request goes to the host in use.
   */
  lemma RequestIsReadable(r: Run, mac: string)
    requires Reachable(r) && Requests(r.d.nvs) && ',' !in mac
    ensures var request := RequestOf(r.d.nvs, mac);
      && request.host == ReadCloudHost(r.d.nvs)
      && Split(Trim(request.body), ',') == ["#reg", r.d.nvs[RegistrationCode], mac, r.d.nvs[DeviceName]]
  {
    var steps :| (forall s | s in steps :: Possible(s)) && r == RunAll(FRESH, steps);
    FieldRun(steps);
    var parts := ["#reg", r.d.nvs[RegistrationCode], mac, r.d.nvs[DeviceName]];
    TrimRequest(parts);
    SplitJoin(parts, ',');
  }
}
