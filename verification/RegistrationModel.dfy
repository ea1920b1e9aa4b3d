/**
 Registration and credentials (src/websocket.rs), and the commands that write them
 (src/command_listener.rs), over a non-volatile store whose calls do not fail. What the registration
 server answers is arbitrary.
 */
module RegistrationModel {
  import opened Prelude
  import opened Text

  const DEFAULT_CLOUD_HOST := "docker.ws-ai-call-bot.workers.dev"
  const DEVICE_NAME_MIN_LEN := 3
  const DEVICE_NAME_MAX_LEN := 64
  const REJECTED := "0"

  /** The keys of the "device" namespace. */
  datatype Key = RegistrationCode | DeviceName | DeviceId | DeviceSecret | CloudHost
  type Nvs = map<Key, string>

  /** What the server is asked, and where. */
  datatype Request = Request(host: string, body: string)

  /** What a websocket client was opened with. */
  datatype Client = Client(host: string, id: string, secret: string)

  datatype Status = NoCode | Registering | Registered | Failed
  datatype Ret = Ok | MalformedValue

  datatype Device = Device(
    nvs: Nvs, reregister: bool, registration: Status, deviceName: Option<string>, client: Option<Client>)

  // ---------------------------------------------------------------- the store

  datatype Read = Missing | TooLong | Value(value: string)

  /** `EspNvs::get_str` into a buffer that also needs room for the terminating NUL. */
  function GetStr(nvs: Nvs, key: Key, buffer: nat): Read {
    if key !in nvs then Missing
    else if Utf8Len(nvs[key]) + 1 > buffer then TooLong
    else Value(nvs[key])
  }

  /** `CommandListener::store`. */
  function Store(nvs: Nvs, key: Key, value: string, min: nat, max: nat): (Nvs, Ret) {
    if min <= Utf8Len(value) <= max then (nvs[key := value], Ok) else (nvs, MalformedValue)
  }

  predicate ValidCode(code: string) {
    Utf8Len(code) == 6
  }

  predicate ValidName(name: string) {
    DEVICE_NAME_MIN_LEN <= Utf8Len(name) <= DEVICE_NAME_MAX_LEN
  }

  /** `read_cloud_host`. */
  function ReadCloudHost(nvs: Nvs): string {
    match GetStr(nvs, CloudHost, 128)
    case Value(host) => if host != "" then host else DEFAULT_CLOUD_HOST
    case _ => DEFAULT_CLOUD_HOST
  }

  // ---------------------------------------------------------------- commands

  /** "#reg": both arguments are checked before either is written. */
  function Reg(d: Device, code: string, name: string): (Device, Ret) {
    if !ValidCode(code) || !ValidName(name) then (d, MalformedValue)
    else
      (d.(nvs := d.nvs[RegistrationCode := code][DeviceName := name], deviceName := Some(name), reregister := true), Ok)
  }

  /** "#name". */
  function Rename(d: Device, name: string): (Device, Ret) {
    var (nvs, ret) := Store(d.nvs, DeviceName, name, DEVICE_NAME_MIN_LEN, DEVICE_NAME_MAX_LEN);
    (if ret == Ok then d.(nvs := nvs, deviceName := Some(name)) else d, ret)
  }

  /** "#host": whether or not the new host is accepted, the credentials of the old one go. */
  function SetHost(d: Device, host: string): (Device, Ret) {
    var (nvs, ret) := if host != "" then Store(d.nvs, CloudHost, host, 1, 128) else (d.nvs - {CloudHost}, Ok);
    (d.(nvs := nvs - {DeviceId, DeviceSecret}, reregister := true), ret)
  }

  /** "#factory". */
  function Factory(d: Device): Device {
    d.(nvs := d.nvs - {DeviceName, RegistrationCode, DeviceId, DeviceSecret, CloudHost},
       deviceName := None, reregister := true)
  }

  /** The command of a line and its first two arguments. */
  function Words(line: string): (string, string, string) {
    if line == "" || line[0] != '#' then ("", "", "")
    else
      var f := TrimAll(Split(line[1..], ','));
      (f[0], if |f| > 1 then f[1] else "", if |f| > 2 then f[2] else "")
  }

  /** `process_line`, as far as it touches the "device" namespace. */
  function ProcessLine(d: Device, line: string): (Device, Ret) {
    var (command, arg0, arg1) := Words(line);
    if command == "reg" then Reg(d, arg0, arg1)
    else if command == "name" then Rename(d, arg0)
    else if command == "host" then SetHost(d, arg0)
    else if command == "factory" then (Factory(d), Ok)
    else (d, Ok)
  }

  // ---------------------------------------------------------------- registering

  datatype Outcome = Credentials(id: string, secret: string) | MissingCode | RejectedCode | RegisterFailed

  /** `parse_registration_response`: `#id,<id>,<secret>,...`. */
  function ParseResponse(body: string): Option<(string, string)> {
    var parts := Split(Trim(body), ',');
    if parts[0] != "#id" || |parts| < 3 then None else Some((parts[1], parts[2]))
  }

  /** `ensure_device_credentials` without a real code: what is stored, if anything is. */
  function Stored(d: Device, rejected: bool): (Device, Outcome) {
    var id, secret := GetStr(d.nvs, DeviceId, 256), GetStr(d.nvs, DeviceSecret, 256);
    if id.Value? && secret.Value? then
      var name := GetStr(d.nvs, DeviceName, 128);
      (d.(deviceName := if name.Value? then Some(name.value) else None), Credentials(id.value, secret.value))
    else (d, if rejected then RejectedCode else MissingCode)
  }

  /** `ensure_device_credentials` with a code and a name: one registration request. */
  function Register(d: Device, name: string, answer: Option<string>): (Device, Outcome) {
    var wiped := d.(registration := Registering, deviceName := Some(name), nvs := d.nvs - {DeviceId, DeviceSecret});
    var issued := if answer.Some? then ParseResponse(answer.value) else None;
    if issued.None? then (wiped.(nvs := wiped.nvs[RegistrationCode := REJECTED]), RegisterFailed)
    else
      var (id, secret) := issued.value;
      (wiped.(nvs := wiped.nvs[DeviceId := id][DeviceSecret := secret] - {RegistrationCode}), Credentials(id, secret))
  }

  /** `ensure_device_credentials`; `answer` is what the server says, should it be asked. */
  function Ensure(d: Device, answer: Option<string>): (Device, Outcome) {
    var code := GetStr(d.nvs, RegistrationCode, 64);
    if code == TooLong then (d, RegisterFailed)
    else if code == Missing then Stored(d, false)
    else if code.value == REJECTED then Stored(d, true)
    else
      var name := GetStr(d.nvs, DeviceName, 128);
      if name == TooLong then (d, RegisterFailed)
      else if name == Missing || !ValidName(name.value) then (d.(nvs := d.nvs - {RegistrationCode}), MissingCode)
      else Register(d, name.value, answer)
  }

  /** Whether `Ensure` makes a registration request. */
  predicate Requests(nvs: Nvs) {
    var code, name := GetStr(nvs, RegistrationCode, 64), GetStr(nvs, DeviceName, 128);
    code.Value? && code.value != REJECTED && name.Value? && ValidName(name.value)
  }

  /** `register_device`'s payload, for a device with this MAC address. */
  function RequestOf(nvs: Nvs, mac: string): Request
    requires Requests(nvs)
  {
    Request(ReadCloudHost(nvs), Join(["#reg", nvs[RegistrationCode], mac, nvs[DeviceName]], ',') + "\r\n")
  }

  /** One lap of `websocket_task` up to its client; a lap only starts once the last client is gone. */
  function Lap(d: Device, answer: Option<string>, opens: bool): (Device, Outcome) {
    var (e, outcome) := Ensure(d, answer);
    match outcome
    case Credentials(id, secret) =>
      var client := Client(ReadCloudHost(e.nvs), id, secret);
      (e.(registration := Registered, client := if opens then Some(client) else None), outcome)
    case MissingCode => (e.(registration := NoCode), outcome)
    case _ => (e.(registration := Failed), outcome)
  }

  /** One pass of the loop that keeps a client: a failed ping or a requested reregistration closes it. */
  function Poll(d: Device, pingOk: bool): Device {
    if d.client.None? then d
    else if !pingOk then d.(client := None)
    else if d.reregister then d.(reregister := false, client := None, registration := Registering)
    else d
  }
}
