/**
 * The Bluetooth device enumeration container: an unsorted list of device
 * records that a platform scan fills through `add`, and bounds-checked
 * lookups by position.  A NULL C string and the empty string are both the
 * empty `string` here; a NULL string list has length 0.
 */
module BluetoothEnum {

  datatype Option<T> = None | Some(value: T)

  /** M_io_bluetooth_enum_device_t */
  datatype Device = Device(name: string, mac: string, serviceNames: seq<string>, serviceUuids: seq<string>)

  /** What every stored device satisfies: identified, with at least one service, one name per service. */
  predicate WellFormed(d: Device)
  {
    d.name != "" && d.mac != "" && |d.serviceUuids| > 0 && |d.serviceNames| == |d.serviceUuids|
  }

  /** The argument check of M_io_bluetooth_enum_add (the enum itself being non-NULL aside). */
  predicate Accepts(name: string, mac: string, serviceNames: Option<seq<string>>, serviceUuids: seq<string>)
  {
    name != "" && mac != "" && |serviceUuids| != 0 &&
    (serviceNames.None? || |serviceNames.value| == |serviceUuids|)
  }

  /** `n` empty names, one per service, for a scan that reported none. */
  function Blanks(n: nat): (r: seq<string>)
    ensures |r| == n
    ensures forall i :: 0 <= i < n ==> r[i] == ""
  {
    if n == 0 then [] else Blanks(n - 1) + [""]
  }

  /** The record M_io_bluetooth_enum_add builds from accepted arguments. */
  function NewDevice(name: string, mac: string, serviceNames: Option<seq<string>>, serviceUuids: seq<string>): (d: Device)
    requires Accepts(name, mac, serviceNames, serviceUuids)
    ensures WellFormed(d)
    ensures d.name == name && d.mac == mac && d.serviceUuids == serviceUuids
    ensures serviceNames.Some? ==> d.serviceNames == serviceNames.value
    ensures serviceNames.None? ==> forall i :: 0 <= i < |d.serviceNames| ==> d.serviceNames[i] == ""
  {
    Device(name, mac, if serviceNames.Some? then serviceNames.value else Blanks(|serviceUuids|), serviceUuids)
  }

  /** The device list after an add: one more device at the end when accepted, unchanged otherwise. */
  function DevicesAfterAdd(devices: seq<Device>, name: string, mac: string,
                           serviceNames: Option<seq<string>>, serviceUuids: seq<string>): (r: seq<Device>)
    ensures Accepts(name, mac, serviceNames, serviceUuids) ==>
      |r| == |devices| + 1 && r[..|devices|] == devices &&
      r[|devices|] == NewDevice(name, mac, serviceNames, serviceUuids)
    ensures !Accepts(name, mac, serviceNames, serviceUuids) ==> r == devices
  {
    if Accepts(name, mac, serviceNames, serviceUuids) then
      devices + [NewDevice(name, mac, serviceNames, serviceUuids)]
    else devices
  }

  /** M_list_at and M_list_str_at: the element at `i`, nothing past the end. */
  function At<T>(l: seq<T>, i: nat): (r: Option<T>)
    ensures i < |l| <==> r.Some?
    ensures i < |l| ==> r == Some(l[i])
  {
    if i < |l| then Some(l[i]) else None
  }

  /** The outcome of M_io_bluetooth_enum_service_id: not found, or the service's name and UUID (each absent when `sidx` is out of range). */
  datatype ServiceLookup = NotFound | Found(name: Option<string>, uuid: Option<string>)

  /** M_io_bluetooth_enum_t */
  class BluetoothEnum {
    var devices: seq<Device>

    predicate Valid()
      reads this
    {
      forall i :: 0 <= i < |devices| ==> WellFormed(devices[i])
    }

    /** M_io_bluetooth_enum_init */
    constructor Init()
      ensures devices == [] && Valid()
    {
      devices := [];
    }
  }

  /**
   * M_io_bluetooth_enum_add: validate, copy the name and mac, take the
   * service names or one empty name per UUID, and append the record.
   */
  method Add(btenum: BluetoothEnum?, name: string, mac: string,
             serviceNames: Option<seq<string>>, serviceUuids: seq<string>)
    modifies btenum
    ensures btenum != null ==>
      btenum.devices == DevicesAfterAdd(old(btenum.devices), name, mac, serviceNames, serviceUuids)
    ensures btenum != null && old(btenum.Valid()) ==> btenum.Valid()
  {
    if btenum == null || name == "" || mac == "" || |serviceUuids| == 0 ||
       (serviceNames.Some? && |serviceNames.value| != |serviceUuids|) {
      return;
    }
    var names: seq<string>;
    if serviceNames.None? {
      names := [];
      for i := 0 to |serviceUuids|
        invariant names == Blanks(i)
      {
        names := names + [""];
      }
    } else {
      names := serviceNames.value;
    }
    var device := Device(name, mac, names, serviceUuids);
    btenum.devices := btenum.devices + [device];
  }

  /** M_io_bluetooth_enum_count */
  function Count(btenum: BluetoothEnum?): (r: nat)
    reads btenum
    ensures btenum == null ==> r == 0
    ensures btenum != null ==> r == |btenum.devices|
  {
    if btenum == null then 0 else |btenum.devices|
  }

  /** M_io_bluetooth_enum_name */
  function Name(btenum: BluetoothEnum?, idx: nat): (r: Option<string>)
    reads btenum
    ensures r.Some? <==> btenum != null && idx < |btenum.devices|
    ensures r.Some? ==> r.value == btenum.devices[idx].name
  {
    if btenum == null then None else NameAt(btenum.devices, idx)
  }

  /** M_io_bluetooth_enum_mac */
  function Mac(btenum: BluetoothEnum?, idx: nat): (r: Option<string>)
    reads btenum
    ensures r.Some? <==> btenum != null && idx < |btenum.devices|
    ensures r.Some? ==> r.value == btenum.devices[idx].mac
  {
    if btenum == null then None else MacAt(btenum.devices, idx)
  }

  /** M_io_bluetooth_enum_service_id */
  function ServiceId(btenum: BluetoothEnum?, idx: nat, sidx: nat): (r: ServiceLookup)
    reads btenum
    ensures r.Found? <==> btenum != null && idx < |btenum.devices|
    ensures r.Found? ==>
      r.name == At(btenum.devices[idx].serviceNames, sidx) &&
      r.uuid == At(btenum.devices[idx].serviceUuids, sidx)
  {
    if btenum == null then NotFound else ServiceAt(btenum.devices, idx, sidx)
  }

  /** The name lookup on the list itself. */
  function NameAt(devices: seq<Device>, idx: nat): (r: Option<string>)
    ensures r.Some? <==> idx < |devices|
    ensures r.Some? ==> r.value == devices[idx].name
  {
    match At(devices, idx)
    case None => None
    case Some(d) => Some(d.name)
  }

  /** The mac lookup on the list itself. */
  function MacAt(devices: seq<Device>, idx: nat): (r: Option<string>)
    ensures r.Some? <==> idx < |devices|
    ensures r.Some? ==> r.value == devices[idx].mac
  {
    match At(devices, idx)
    case None => None
    case Some(d) => Some(d.mac)
  }

  /**
   * The service lookup on the list itself: only the device index is checked;
   * a service index past the end yields no name and no UUID.
   */
  function ServiceAt(devices: seq<Device>, idx: nat, sidx: nat): (r: ServiceLookup)
    ensures r.Found? <==> idx < |devices|
    ensures r.Found? ==>
      r.name == At(devices[idx].serviceNames, sidx) && r.uuid == At(devices[idx].serviceUuids, sidx)
  {
    match At(devices, idx)
    case None => NotFound
    case Some(d) => Found(At(d.serviceNames, sidx), At(d.serviceUuids, sidx))
  }

  /** On a well-formed device, a service index has a name exactly when it has a UUID. */
  lemma ServiceNameWithUuid(devices: seq<Device>, idx: nat, sidx: nat)
    requires idx < |devices| && WellFormed(devices[idx])
    ensures ServiceAt(devices, idx, sidx).Found?
    ensures ServiceAt(devices, idx, sidx).name.Some? <==> ServiceAt(devices, idx, sidx).uuid.Some?
  {
  }

  /** After an accepted add, the new device is found at the old count with what was added. */
  lemma AddThenLookup(devices: seq<Device>, name: string, mac: string,
                      serviceNames: Option<seq<string>>, serviceUuids: seq<string>, sidx: nat)
    requires Accepts(name, mac, serviceNames, serviceUuids)
    ensures var r := DevicesAfterAdd(devices, name, mac, serviceNames, serviceUuids);
      |r| == |devices| + 1 &&
      NameAt(r, |devices|) == Some(name) && MacAt(r, |devices|) == Some(mac) &&
      ServiceAt(r, |devices|, sidx).uuid == At(serviceUuids, sidx) &&
      (sidx < |serviceUuids| ==>
         ServiceAt(r, |devices|, sidx).name == Some(if serviceNames.Some? then serviceNames.value[sidx] else ""))
  {
  }

  /** An add never changes what earlier positions hold, and a refused add changes nothing at all. */
  lemma AddKeepsEarlier(devices: seq<Device>, name: string, mac: string,
                        serviceNames: Option<seq<string>>, serviceUuids: seq<string>, idx: nat, sidx: nat)
    requires idx < |devices|
    ensures var r := DevicesAfterAdd(devices, name, mac, serviceNames, serviceUuids);
      NameAt(r, idx) == NameAt(devices, idx) && MacAt(r, idx) == MacAt(devices, idx) &&
      ServiceAt(r, idx, sidx) == ServiceAt(devices, idx, sidx)
  {
    var r := DevicesAfterAdd(devices, name, mac, serviceNames, serviceUuids);
    assert r[idx] == devices[idx];
  }

  /** Adding keeps every stored device well formed. */
  lemma AddKeepsWellFormed(devices: seq<Device>, name: string, mac: string,
                           serviceNames: Option<seq<string>>, serviceUuids: seq<string>)
    requires forall i :: 0 <= i < |devices| ==> WellFormed(devices[i])
    ensures var r := DevicesAfterAdd(devices, name, mac, serviceNames, serviceUuids);
      forall i :: 0 <= i < |r| ==> WellFormed(r[i])
  {
    var r := DevicesAfterAdd(devices, name, mac, serviceNames, serviceUuids);
    forall i | 0 <= i < |r| ensures WellFormed(r[i]) {
      if i < |devices| {
        assert r[i] == devices[i];
      }
    }
  }
}
