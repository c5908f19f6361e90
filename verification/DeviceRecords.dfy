/**
 Device records: what one process remembers and what the shared file holds, and
 how the two are merged. Records are kept for each gateway and credential.
 */
module DeviceRecords {
  import opened Text

  datatype Device = Device(deviceId: Option<string>, revoked: bool)

  const NO_DEVICE: Device := Device(None, false)

  type Records = map<string, Device>

  type Devices = map<string, Records>

  predicate IsIdChar(c: char) {
    'a' <= c <= 'z' || 'A' <= c <= 'Z' || '0' <= c <= '9' || c == '_' || c == '-'
  }

  /** `cd_` and 22 URL-safe base64 characters. */
  predicate ValidDeviceId(id: string) {
    |id| == 25 && id[0] == 'c' && id[1] == 'd' && id[2] == '_' && forall i :: 3 <= i < 25 ==> IsIdChar(id[i])
  }

  /** Exactly the ids of the form the gateway issues. */
  lemma DeviceIdIff(id: string)
    ensures ValidDeviceId(id) <==>
      exists text :: id == "cd_" + text && |text| == 22 && forall i :: 0 <= i < 22 ==> IsIdChar(text[i])
  {
    if ValidDeviceId(id) {
      assert id == "cd_" + id[3..];
    }
  }

  function Lookup(devices: Devices, gateway: string, credential: string): Option<Device> {
    if gateway in devices && credential in devices[gateway] then Some(devices[gateway][credential]) else None
  }

  function RecordsOf(devices: Devices, gateway: string): Records {
    if gateway in devices then devices[gateway] else map[]
  }

  // ---- merging ----------------------------------------------------------

  /** This process's id wins; revocation is sticky. */
  function MergeDevice(mine: Device, theirs: Device): Device {
    Device(if mine.deviceId.Some? then mine.deviceId else theirs.deviceId, mine.revoked || theirs.revoked)
  }

  function MergeRecords(mine: Records, theirs: Records): Records {
    map c | c in mine.Keys + theirs.Keys ::
      if c !in theirs then mine[c] else if c !in mine then theirs[c] else MergeDevice(mine[c], theirs[c])
  }

  function Merge(mine: Devices, theirs: Devices): Devices {
    map g | g in mine.Keys + theirs.Keys ::
      if g !in theirs then mine[g] else MergeRecords(RecordsOf(mine, g), theirs[g])
  }

  lemma MergeLookup(mine: Devices, theirs: Devices, g: string, c: string)
    ensures Lookup(Merge(mine, theirs), g, c)
         == match (Lookup(mine, g, c), Lookup(theirs, g, c))
            case (None, other) => other
            case (Some(d), None) => Some(d)
            case (Some(d), Some(e)) => Some(MergeDevice(d, e))
  {
  }

  lemma MergeRecordsAssociative(a: Records, b: Records, c: Records)
    ensures MergeRecords(MergeRecords(a, b), c) == MergeRecords(a, MergeRecords(b, c))
  {
  }

  lemma MergeAt(a: Devices, b: Devices, g: string)
    ensures RecordsOf(Merge(a, b), g) == MergeRecords(RecordsOf(a, g), RecordsOf(b, g))
  {
    MergeEmpty(RecordsOf(a, g));
    MergeEmpty(RecordsOf(b, g));
  }

  /** In whatever order files and memories are folded together, the result is the same. */
  lemma MergeAssociative(a: Devices, b: Devices, c: Devices)
    ensures Merge(Merge(a, b), c) == Merge(a, Merge(b, c))
  {
    var left, right := Merge(Merge(a, b), c), Merge(a, Merge(b, c));
    assert left.Keys == right.Keys;
    forall g | g in left ensures left[g] == right[g] {
      MergeAt(a, b, g);
      MergeAt(b, c, g);
      MergeAt(Merge(a, b), c, g);
      MergeAt(a, Merge(b, c), g);
      MergeRecordsAssociative(RecordsOf(a, g), RecordsOf(b, g), RecordsOf(c, g));
      hide Merge, MergeRecords;
    }
  }

  lemma MergeEmpty(a: Records)
    ensures MergeRecords(a, map[]) == a && MergeRecords(map[], a) == a
  {
  }

  lemma MergeRecordsIdempotent(a: Records, b: Records)
    ensures MergeRecords(MergeRecords(a, b), b) == MergeRecords(a, b) && MergeRecords(a, a) == a
  {
  }

  lemma MergeIdempotent(a: Devices, b: Devices)
    ensures Merge(Merge(a, b), b) == Merge(a, b) && Merge(a, a) == a
  {
    hide MergeRecords;
    var once, twice := Merge(a, b), Merge(Merge(a, b), b);
    assert once.Keys == twice.Keys;
    forall g | g in once ensures once[g] == twice[g] {
      MergeAt(a, b, g);
      MergeAt(once, b, g);
      MergeRecordsIdempotent(RecordsOf(a, g), RecordsOf(b, g));
    }
    forall g | g in a ensures Merge(a, a)[g] == a[g] {
      MergeRecordsIdempotent(a[g], a[g]);
    }
  }

  /** Merging is not symmetric, but only in which id wins when both sides have one. */
  lemma MergeCommutesUpToIds(a: Devices, b: Devices, g: string, c: string)
    ensures var left, right := Lookup(Merge(a, b), g, c), Lookup(Merge(b, a), g, c);
            && left.Some? == right.Some?
            && (left.Some? ==> left.value.revoked == right.value.revoked
                               && left.value.deviceId.Some? == right.value.deviceId.Some?)
            && (left == right <==>
                  var mine, theirs := Lookup(a, g, c), Lookup(b, g, c);
                  !(mine.Some? && theirs.Some? && mine.value.deviceId.Some? && theirs.value.deviceId.Some?
                    && mine.value.deviceId != theirs.value.deviceId))
  {
    MergeLookup(a, b, g, c);
    MergeLookup(b, a, g, c);
  }

  // ---- records worth keeping --------------------------------------------

  /** What reading the file keeps: a valid id, or a revocation without an id. */
  predicate WellFormed(d: Device) {
    if d.deviceId.Some? then ValidDeviceId(d.deviceId.value) else d.revoked
  }

  function RetainRecords(records: Records): Records {
    map c | c in records && WellFormed(records[c]) :: records[c]
  }

  function Retain(devices: Devices): Devices {
    map g | g in devices && RetainRecords(devices[g]) != map[] :: RetainRecords(devices[g])
  }

  predicate AllWellFormed(devices: Devices) {
    forall g, c :: g in devices && c in devices[g] ==> WellFormed(devices[g][c])
  }

  lemma RetainLookup(devices: Devices, g: string, c: string)
    ensures Lookup(Retain(devices), g, c)
         == var d := Lookup(devices, g, c); if d.Some? && WellFormed(d.value) then d else None
  {
    hide WellFormed;
    if g in devices && c in devices[g] && WellFormed(devices[g][c]) {
      assert c in RetainRecords(devices[g]);
    }
  }

  lemma MergeWellFormed(a: Devices, b: Devices)
    requires AllWellFormed(a) && AllWellFormed(b)
    ensures AllWellFormed(Merge(a, b))
  {
    forall g, c | g in Merge(a, b) && c in Merge(a, b)[g] ensures WellFormed(Merge(a, b)[g][c]) {
      MergeLookup(a, b, g, c);
    }
  }

  // ---- changes ----------------------------------------------------------

  function Recorded(records: Records, credential: string, id: string): Records {
    records[credential := Device(Some(id), false)]
  }

  /** The credential, and every other one known to be the same device. */
  function Revoked(records: Records, credential: string): Records {
    var device := if credential in records then records[credential] else NO_DEVICE;
    map c | c in records.Keys + {credential} ::
      if c == credential then device.(revoked := true)
      else if device.deviceId.Some? && records[c].deviceId == device.deviceId then records[c].(revoked := true)
      else records[c]
  }

  datatype Change = Record(id: string) | Revoke

  function Changed(devices: Devices, gateway: string, credential: string, change: Change): Devices {
    var records := RecordsOf(devices, gateway);
    devices[gateway := match change
                       case Record(id) => Recorded(records, credential, id)
                       case Revoke => Revoked(records, credential)]
  }

  // ---- in place ---------------------------------------------------------

  /** The maps as `merge_devices` and the record operations change them. */
  class DeviceStore {
    var gateways: Devices

    constructor (gateways: Devices)
      ensures this.gateways == gateways
    {
      this.gateways := gateways;
    }

    method MergeDevices(other: Devices)
      modifies this
      ensures gateways == Merge(old(gateways), other)
    {
      ghost var start := gateways;
      var left := other.Keys;
      while left != {}
        invariant left <= other.Keys
        invariant gateways.Keys == start.Keys + (other.Keys - left)
        invariant forall g :: g in gateways ==>
          gateways[g] == if g in other && g !in left then MergeRecords(RecordsOf(start, g), other[g]) else start[g]
        decreases left
      {
        var g :| g in left;
        left := left - {g};
        var records := MergeInto(RecordsOf(gateways, g), other[g]);
        gateways := gateways[g := records];
      }
    }

    method MergeInto(current: Records, other: Records) returns (records: Records)
      ensures records == MergeRecords(current, other)
    {
      records := current;
      var left := other.Keys;
      while left != {}
        invariant left <= other.Keys
        invariant records.Keys == current.Keys + (other.Keys - left)
        invariant forall c :: c in records ==>
          records[c] == if c !in other || c in left then current[c]
                        else if c !in current then other[c] else MergeDevice(current[c], other[c])
        decreases left
      {
        var c :| c in left;
        left := left - {c};
        var device := other[c];
        var entry := if c in records then records[c] else device;
        entry := entry.(revoked := entry.revoked || device.revoked);
        if entry.deviceId.None? {
          entry := entry.(deviceId := device.deviceId);
        }
        records := records[c := entry];
      }
    }

    method RecordDevice(gateway: string, credential: string, id: string)
      modifies this
      ensures gateways == Changed(old(gateways), gateway, credential, Record(id))
    {
      var records := RecordsOf(gateways, gateway);
      gateways := gateways[gateway := records[credential := Device(Some(id), false)]];
    }

    method RecordRevoked(gateway: string, credential: string)
      modifies this
      ensures gateways == Changed(old(gateways), gateway, credential, Revoke)
    {
      var start := RecordsOf(gateways, gateway);
      var device := if credential in start then start[credential] else NO_DEVICE;
      var records := start[credential := device.(revoked := true)];
      if device.deviceId.Some? {
        var left := records.Keys;
        while left != {}
          invariant left <= records.Keys && records.Keys == start.Keys + {credential}
          invariant forall c :: c in records ==>
            records[c] == if c !in left then Revoked(start, credential)[c]
                          else if c == credential then device.(revoked := true) else start[c]
          decreases left
        {
          var c :| c in left;
          left := left - {c};
          if records[c].deviceId == device.deviceId {
            records := records[c := records[c].(revoked := true)];
          }
        }
      }
      assert records == Revoked(start, credential);
      gateways := gateways[gateway := records];
    }
  }
}
