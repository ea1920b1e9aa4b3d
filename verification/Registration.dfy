/** The methods behind registration: `CommandListener`'s commands and `websocket_task`'s steps. */
module Registration {
  import opened Prelude
  import opened Text
  import opened RegistrationModel

  /** The device's store, and the parts of `Global` that registration uses. */
  class Controller {
    var nvs: Nvs
    var reregister: bool
    var registration: Status
    var deviceName: Option<string>
    var client: Option<Client>

    ghost function Now(): Device
      reads this
    {
      Device(nvs, reregister, registration, deviceName, client)
    }

    constructor Boot(nvs: Nvs)
      ensures Now() == Device(nvs, false, NoCode, None, None)
    {
      this.nvs := nvs;
      reregister := false;
      registration := NoCode;
      deviceName := None;
      client := None;
    }

    method StoreValue(key: Key, value: string, min: nat, max: nat) returns (ret: Ret)
      modifies `nvs
      ensures (nvs, ret) == Store(old(nvs), key, value, min, max)
    {
      if !(min <= Utf8Len(value) <= max) { return MalformedValue; }
      nvs := nvs[key := value];
      ret := Ok;
    }

    method RemoveKey(key: Key)
      modifies `nvs
      ensures nvs == old(nvs) - {key}
    {
      nvs := nvs - {key};
    }

    /** `process_line`. */
    method Command(line: string) returns (ret: Ret)
      modifies this
      ensures (Now(), ret) == ProcessLine(old(Now()), line)
    {
      var (command, arg0, arg1) := Words(line);
      ret := Ok;
      if command == "reg" {
        ret := RegCommand(arg0, arg1);
      } else if command == "name" {
        ret := StoreValue(DeviceName, arg0, DEVICE_NAME_MIN_LEN, DEVICE_NAME_MAX_LEN);
        if ret == Ok { deviceName := Some(arg0); }
      } else if command == "host" {
        ret := HostCommand(arg0);
      } else if command == "factory" {
        FactoryCommand();
      }
    }

    method RegCommand(code: string, name: string) returns (ret: Ret)
      modifies this
      ensures (Now(), ret) == Reg(old(Now()), code, name)
    {
      ret := Ok;
      if Utf8Len(code) != 6 || !(DEVICE_NAME_MIN_LEN <= Utf8Len(name) <= DEVICE_NAME_MAX_LEN) {
        ret := MalformedValue;
      } else {
        ret := StoreValue(RegistrationCode, code, 6, 6);
        if ret == Ok { ret := StoreValue(DeviceName, name, DEVICE_NAME_MIN_LEN, DEVICE_NAME_MAX_LEN); }
      }
      if ret == Ok {
        deviceName := Some(name);
        reregister := true;
      }
    }

    method HostCommand(host: string) returns (ret: Ret)
      modifies this
      ensures (Now(), ret) == SetHost(old(Now()), host)
    {
      ret := Ok;
      if host != "" {
        ret := StoreValue(CloudHost, host, 1, 128);
      } else {
        RemoveKey(CloudHost);
      }
      ghost var stored := nvs;
      RemoveKey(DeviceId);
      RemoveKey(DeviceSecret);
      assert nvs == stored - {DeviceId, DeviceSecret};
      reregister := true;
    }

    method FactoryCommand()
      modifies this
      ensures Now() == Factory(old(Now()))
    {
      RemoveKey(DeviceName);
      RemoveKey(RegistrationCode);
      RemoveKey(DeviceId);
      RemoveKey(DeviceSecret);
      RemoveKey(CloudHost);
      assert nvs == old(nvs) - {DeviceName, RegistrationCode, DeviceId, DeviceSecret, CloudHost};
      deviceName := None;
      reregister := true;
    }

    /** `ensure_device_credentials`, step by step. */
    method EnsureDeviceCredentials(answer: Option<string>) returns (outcome: Outcome)
      modifies this
      ensures (Now(), outcome) == Ensure(old(Now()), answer)
    {
      var code := GetStr(nvs, RegistrationCode, 64);
      if code == TooLong { return RegisterFailed; }
      var rejected := code.Value? && code.value == REJECTED;
      if code == Missing || rejected {
        var id, secret := GetStr(nvs, DeviceId, 256), GetStr(nvs, DeviceSecret, 256);
        if !id.Value? || !secret.Value? {
          if rejected { return RejectedCode; } else { return MissingCode; }
        }
        var stored := GetStr(nvs, DeviceName, 128);
        deviceName := if stored.Value? then Some(stored.value) else None;
        return Credentials(id.value, secret.value);
      }
      var name := GetStr(nvs, DeviceName, 128);
      if name == TooLong { return RegisterFailed; }
      if name == Missing || !ValidName(name.value) {
        RemoveKey(RegistrationCode);
        return MissingCode;
      }
      outcome := RegisterDevice(name.value, answer);
    }

    /** The part of `ensure_device_credentials` that asks the server. */
    method RegisterDevice(name: string, answer: Option<string>) returns (outcome: Outcome)
      modifies this
      ensures (Now(), outcome) == Register(old(Now()), name, answer)
    {
      registration := Registering;
      deviceName := Some(name);
      ghost var before := nvs;
      RemoveKey(DeviceId);
      RemoveKey(DeviceSecret);
      assert nvs == before - {DeviceId, DeviceSecret};
      var issued := if answer.Some? then ParseResponse(answer.value) else None;
      if issued.None? {
        nvs := nvs[RegistrationCode := REJECTED];
        return RegisterFailed;
      }
      var (id, secret) := issued.value;
      nvs := nvs[DeviceId := id];
      nvs := nvs[DeviceSecret := secret];
      RemoveKey(RegistrationCode);
      outcome := Credentials(id, secret);
    }

    /** One attempt of `websocket_task` to get a client. */
    method Connect(answer: Option<string>, opens: bool) returns (outcome: Outcome)
      modifies this
      ensures (Now(), outcome) == Lap(old(Now()), answer, opens)
    {
      outcome := EnsureDeviceCredentials(answer);
      match outcome {
        case Credentials(id, secret) =>
          registration := Registered;
          var host := ReadCloudHost(nvs);
          client := if opens then Some(Client(host, id, secret)) else None;
        case MissingCode => registration := NoCode;
        case RejectedCode => registration := Failed;
        case RegisterFailed => registration := Failed;
      }
    }

    /** One pass of the inner loop of `websocket_task`. */
    method PollClient(pingOk: bool)
      modifies this
      ensures Now() == Poll(old(Now()), pingOk)
    {
      if client.None? { return; }
      if !pingOk {
        client := None;
        return;
      }
      if reregister {
        reregister := false;
        client := None;
        registration := Registering;
      }
    }
  }
}
