/**
 Several processes, one device key and one device file. Every change is a
 read-merge-write under the file's lock; the lock, the read and the write may each
 fail. `Load` is a process starting, or starting again.
 */
module DeviceRegistry {
  import opened Text
  import opened DeviceRecords

  /** `readable`: false while reading or parsing the file fails. */
  datatype DeviceFile = DeviceFile(keyHash: string, gateways: Devices, readable: bool)

  datatype State = State(disk: Option<DeviceFile>, processes: map<nat, Devices>)

  datatype Event =
    | Load(id: nat, locked: bool)
    | Update(id: nat, gateway: string, credential: string, change: Change, locked: bool, written: bool)

  /** A missing file and another key's file are empty; `None` is a failed read. */
  function ReadDeviceFile(disk: Option<DeviceFile>, keyHash: string): Option<Devices> {
    if disk.None? then Some(map[])
    else if !disk.value.readable then None
    else if disk.value.keyHash != keyHash then Some(map[])
    else Some(Retain(disk.value.gateways))
  }

  function OrEmpty(devices: Option<Devices>): Devices {
    if devices.Some? then devices.value else map[]
  }

  /** This process's memory after an update: what the file held is merged in first. */
  function Updated(memory: Devices, disk: Option<DeviceFile>, e: Event, keyHash: string): Devices
    requires e.Update?
  {
    var onDisk := if e.locked then OrEmpty(ReadDeviceFile(disk, keyHash)) else map[];
    Changed(Merge(memory, onDisk), e.gateway, e.credential, e.change)
  }

  /** An invalid device id is refused before anything changes. */
  predicate Refused(e: Event) {
    e.Update? && e.change.Record? && !ValidDeviceId(e.change.id)
  }

  function Step(s: State, e: Event, keyHash: string): State {
    match e
    case Load(id, locked) =>
      if !locked then s else s.(processes := s.processes[id := OrEmpty(ReadDeviceFile(s.disk, keyHash))])
    case Update(id, _, _, _, locked, written) =>
      if id !in s.processes || Refused(e) then s
      else
        var memory := Updated(s.processes[id], s.disk, e, keyHash);
        State(if locked && written then Some(DeviceFile(keyHash, memory, true)) else s.disk,
              s.processes[id := memory])
  }

  function Run(s: State, events: seq<Event>, keyHash: string): State
    decreases |events|
  {
    if events == [] then s else Run(Step(s, events[0], keyHash), events[1..], keyHash)
  }

  /** The same update on a process's own store. */
  method UpdateStore(store: DeviceStore, disk: Option<DeviceFile>, e: Event, keyHash: string)
    returns (after: Option<DeviceFile>, ok: bool)
    requires e.Update? && !Refused(e)
    modifies store
    ensures store.gateways == Updated(old(store.gateways), disk, e, keyHash)
    ensures ok == (e.locked && e.written)
    ensures after == if ok then Some(DeviceFile(keyHash, store.gateways, true)) else disk
  {
    hide Merge, Changed, ReadDeviceFile;
    var onDisk := if e.locked then OrEmpty(ReadDeviceFile(disk, keyHash)) else map[];
    store.MergeDevices(onDisk);
    match e.change {
      case Record(id) => store.RecordDevice(e.gateway, e.credential, id);
      case Revoke => store.RecordRevoked(e.gateway, e.credential);
    }
    ok := e.locked && e.written;
    after := if ok then Some(DeviceFile(keyHash, store.gateways, true)) else disk;
  }

  // ---- one update, one record -------------------------------------------

  /** What an update does to one record of the merged map. */
  function ChangedRecord(
    d: Option<Device>, g: string, c: string, e: Event, subject: Option<Device>): Option<Device>
    requires e.Update?
  {
    if g != e.gateway then d
    else if c == e.credential then
      Some(match e.change
           case Record(id) => Device(Some(id), false)
           case Revoke => (if d.Some? then d.value else NO_DEVICE).(revoked := true))
    else if e.change.Revoke? && d.Some? && subject.Some? && subject.value.deviceId.Some?
            && d.value.deviceId == subject.value.deviceId then Some(d.value.(revoked := true))
    else d
  }

  lemma ChangedLookup(devices: Devices, e: Event, g: string, c: string)
    requires e.Update?
    ensures Lookup(Changed(devices, e.gateway, e.credential, e.change), g, c)
         == ChangedRecord(Lookup(devices, g, c), g, c, e, Lookup(devices, e.gateway, e.credential))
  {
  }

  lemma ChangedWellFormed(devices: Devices, e: Event)
    requires e.Update? && !Refused(e) && AllWellFormed(devices)
    ensures AllWellFormed(Changed(devices, e.gateway, e.credential, e.change))
  {
    hide ValidDeviceId;
    var after := Changed(devices, e.gateway, e.credential, e.change);
    forall g, c | g in after && c in after[g] ensures WellFormed(after[g][c]) {
      ChangedLookup(devices, e, g, c);
      hide Changed;
      assert Lookup(after, g, c) == Some(after[g][c]);
    }
  }

  // ---- the invariant ----------------------------------------------------

  /** What any process reads back from the file. */
  function Stored(s: State, keyHash: string): Devices {
    OrEmpty(ReadDeviceFile(s.disk, keyHash))
  }

  /** Every process remembers only records that reading a file would keep. Nothing is asked of
      the file: it may be missing, unreadable or another key's. */
  predicate Remembered(s: State) {
    forall id :: id in s.processes ==> AllWellFormed(s.processes[id])
  }

  lemma StoredWellFormed(s: State, keyHash: string)
    ensures AllWellFormed(Stored(s, keyHash))
  {
    hide WellFormed;
  }

  lemma UpdatedWellFormed(memory: Devices, s: State, e: Event, keyHash: string)
    requires e.Update? && !Refused(e) && AllWellFormed(memory)
    ensures AllWellFormed(Updated(memory, s.disk, e, keyHash))
  {
    hide WellFormed, Merge, Changed;
    StoredWellFormed(s, keyHash);
    var onDisk: Devices := if e.locked then Stored(s, keyHash) else map[];
    MergeWellFormed(memory, onDisk);
    ChangedWellFormed(Merge(memory, onDisk), e);
  }

  lemma StepIsRemembered(s: State, e: Event, keyHash: string)
    requires Remembered(s)
    ensures Remembered(Step(s, e, keyHash))
  {
    hide AllWellFormed, Updated, Retain;
    StoredWellFormed(s, keyHash);
    if e.Update? && e.id in s.processes && !Refused(e) {
      UpdatedWellFormed(s.processes[e.id], s, e, keyHash);
    }
  }

  /** The record a reader finds after a successful write is the writer's own. */
  lemma WrittenLookup(memory: Devices, keyHash: string, processes: map<nat, Devices>, g: string, c: string)
    requires AllWellFormed(memory)
    ensures Lookup(Stored(State(Some(DeviceFile(keyHash, memory, true)), processes), keyHash), g, c)
         == Lookup(memory, g, c)
  {
    hide WellFormed;
    RetainLookup(memory, g, c);
  }

  lemma UpdatedLookup(memory: Devices, s: State, e: Event, keyHash: string, g: string, c: string)
    requires e.Update?
    ensures var onDisk: Devices := if e.locked then Stored(s, keyHash) else map[];
            Lookup(Updated(memory, s.disk, e, keyHash), g, c)
            == ChangedRecord(Lookup(Merge(memory, onDisk), g, c), g, c, e,
                             Lookup(Merge(memory, onDisk), e.gateway, e.credential))
  {
    hide Merge, Changed, ReadDeviceFile;
    var onDisk: Devices := if e.locked then Stored(s, keyHash) else map[];
    ChangedLookup(Merge(memory, onDisk), e, g, c);
  }

  // ---- what stays on disk -----------------------------------------------

  /** The record stays, keeps having an id if it had one, and stays revoked if `revokedStays`. */
  predicate Kept(before: Option<Device>, after: Option<Device>, revokedStays: bool) {
    before.Some? ==>
      && after.Some?
      && (before.value.deviceId.Some? ==> after.value.deviceId.Some?)
      && (before.value.revoked && revokedStays ==> after.value.revoked)
  }

  predicate Rerecords(e: Event, g: string, c: string) {
    e.Update? && e.change.Record? && e.gateway == g && e.credential == c
  }

  lemma StepKeepsStored(s: State, e: Event, keyHash: string, g: string, c: string)
    requires Remembered(s)
    ensures Kept(Lookup(Stored(s, keyHash), g, c), Lookup(Stored(Step(s, e, keyHash), keyHash), g, c),
                 !Rerecords(e, g, c))
  {
    hide Merge, AllWellFormed, Updated, Retain;
    if e.Update? && e.id in s.processes && !Refused(e) && e.locked && e.written {
      var memory := s.processes[e.id];
      var after := Updated(memory, s.disk, e, keyHash);
      UpdatedWellFormed(memory, s, e, keyHash);
      WrittenLookup(after, keyHash, s.processes[e.id := after], g, c);
      UpdatedLookup(memory, s, e, keyHash, g, c);
      MergeLookup(memory, Stored(s, keyHash), g, c);
    }
  }

  /** Over every run of any number of processes, whatever locks and writes fail: no record
      leaves the file, no device id reverts to none, and a revoked credential stays revoked
      unless a device is recorded for that very gateway and credential. */
  lemma {:induction false} RunKeepsStored(s: State, events: seq<Event>, keyHash: string, g: string, c: string)
    requires Remembered(s)
    ensures Remembered(Run(s, events, keyHash))
    ensures Kept(Lookup(Stored(s, keyHash), g, c), Lookup(Stored(Run(s, events, keyHash), keyHash), g, c),
                 forall e :: e in events ==> !Rerecords(e, g, c))
    decreases |events|
  {
    hide Step, Stored, Remembered, Lookup;
    if events != [] {
      var next := Step(s, events[0], keyHash);
      assert events[0] in events && forall e :: e in events[1..] ==> e in events;
      StepIsRemembered(s, events[0], keyHash);
      StepKeepsStored(s, events[0], keyHash, g, c);
      RunKeepsStored(next, events[1..], keyHash, g, c);
    }
  }

  /** With an unreadable file the promise fails: a successful update keeps every record on disk
      exactly when the file could be read or the process remembers all of them already. */
  lemma UpdateKeepsRecordsIff(s: State, e: Event, keyHash: string)
    requires e.Update? && e.id in s.processes && !Refused(e) && e.locked && e.written
    requires s.disk.Some? && s.disk.value.keyHash == keyHash && AllWellFormed(s.disk.value.gateways)
    ensures var held, memory := s.disk.value.gateways, s.processes[e.id];
            (forall g, c :: Lookup(held, g, c).Some? ==>
               Lookup(Step(s, e, keyHash).disk.value.gateways, g, c).Some?)
            <==> s.disk.value.readable
                 || forall g, c :: Lookup(held, g, c).Some? ==>
                      Lookup(memory, g, c).Some? || (g == e.gateway && c == e.credential)
  {
    hide Merge, Updated, WellFormed;
    var held, memory := s.disk.value.gateways, s.processes[e.id];
    var after := Step(s, e, keyHash).disk.value.gateways;
    forall g, c
      ensures Lookup(after, g, c).Some? <==>
        Lookup(memory, g, c).Some? || (g == e.gateway && c == e.credential)
        || (s.disk.value.readable && Lookup(held, g, c).Some?)
    {
      UpdatedLookup(memory, s, e, keyHash, g, c);
      MergeLookup(memory, Stored(s, keyHash), g, c);
      RetainLookup(held, g, c);
      hide Retain;
      if Lookup(held, g, c).Some? {
        assert WellFormed(held[g][c]);
      }
    }
  }

  /** Ids are not protected the way revocations are: a process that remembers another id for a
      record writes it back. The stored id survives someone's update elsewhere exactly when that
      process remembers none, or the same one. */
  lemma StoredIdSurvivesIff(s: State, e: Event, keyHash: string, g: string, c: string)
    requires Remembered(s) && e.Update? && e.id in s.processes && !Refused(e) && e.locked && e.written
    requires !Rerecords(e, g, c)
    requires Lookup(Stored(s, keyHash), g, c).Some? && Lookup(Stored(s, keyHash), g, c).value.deviceId.Some?
    ensures var before, after := Lookup(Stored(s, keyHash), g, c), Lookup(Stored(Step(s, e, keyHash), keyHash), g, c);
            var mine := Lookup(s.processes[e.id], g, c);
            after.Some? && (after.value.deviceId == before.value.deviceId <==>
              mine.None? || mine.value.deviceId.None? || mine.value.deviceId == before.value.deviceId)
  {
    hide Merge, AllWellFormed, Updated, Retain;
    var memory := s.processes[e.id];
    var after := Updated(memory, s.disk, e, keyHash);
    UpdatedWellFormed(memory, s, e, keyHash);
    WrittenLookup(after, keyHash, s.processes[e.id := after], g, c);
    UpdatedLookup(memory, s, e, keyHash, g, c);
    MergeLookup(memory, Stored(s, keyHash), g, c);
  }

  // ---- revocation -------------------------------------------------------

  /** A file of another key yields nothing: a process that starts has no record and signs nothing,
      and an update changes the process's own memory only. */
  lemma OtherKeyIsUnread(s: State, e: Event, keyHash: string, g: string, c: string)
    requires s.disk.Some? && s.disk.value.keyHash != keyHash
    ensures Stored(s, keyHash) == map[]
    ensures e.Load? && e.locked ==> SigningId(Step(s, e, keyHash).processes[e.id], g, c) == None
    ensures e.Update? && e.id in s.processes && !Refused(e) ==>
      Step(s, e, keyHash).processes[e.id] == Changed(s.processes[e.id], e.gateway, e.credential, e.change)
  {
    hide Changed;
    if e.Update? && e.id in s.processes {
      MergeNothing(s.processes[e.id]);
    }
  }

  lemma MergeNothing(memory: Devices)
    ensures Merge(memory, map[]) == memory
  {
  }

  /** The device id a request would be signed with. */
  function SigningId(memory: Devices, g: string, c: string): Option<string> {
    var d := Lookup(memory, g, c);
    if d.None? || d.value.revoked then None else d.value.deviceId
  }

  /** Revoking one credential stops signing, at once, for every credential of the gateway that
      the process knows to share its device id, even when nothing could be saved. */
  lemma RevocationStopsDevice(s: State, e: Event, keyHash: string, c: string)
    requires e.Update? && e.change.Revoke? && e.id in s.processes
    ensures var memory := Step(s, e, keyHash).processes[e.id];
            var subject := Lookup(memory, e.gateway, e.credential);
            && subject.Some? && subject.value.revoked
            && SigningId(memory, e.gateway, e.credential) == None
            && (subject.value.deviceId.Some? ==> SigningId(memory, e.gateway, c) != subject.value.deviceId)
  {
    hide Merge, Updated, ReadDeviceFile;
    UpdatedLookup(s.processes[e.id], s, e, keyHash, e.gateway, e.credential);
    UpdatedLookup(s.processes[e.id], s, e, keyHash, e.gateway, c);
  }

  predicate IsRevoked(memory: Devices, g: string, c: string) {
    Lookup(memory, g, c).Some? && Lookup(memory, g, c).value.revoked
  }

  /** A credential revoked in a process stays unsignable there, through any updates and merges
      by anyone, until that process records a device for it (or starts again). */
  lemma {:induction false} StaysUnsignable(s: State, events: seq<Event>, keyHash: string, id: nat, g: string, c: string)
    requires id in s.processes && IsRevoked(s.processes[id], g, c)
    requires forall e :: e in events && e.id == id ==> !e.Load? && !Rerecords(e, g, c)
    ensures var after := Run(s, events, keyHash);
            id in after.processes && IsRevoked(after.processes[id], g, c)
            && SigningId(after.processes[id], g, c) == None
    decreases |events|
  {
    if events != [] {
      var e := events[0];
      assert e in events && forall x :: x in events[1..] ==> x in events;
      StepStaysRevoked(s, e, keyHash, id, g, c);
      hide Step;
      StaysUnsignable(Step(s, e, keyHash), events[1..], keyHash, id, g, c);
    }
  }

  /** From a revocation on: every credential the process knows for the revoked device, the
      revoked one included, stays unsignable there over every run. */
  lemma RevokedDeviceStaysUnsignable(
    s: State, revocation: Event, events: seq<Event>, keyHash: string, c: string)
    requires revocation.Update? && revocation.change.Revoke? && revocation.id in s.processes
    requires forall e :: e in events && e.id == revocation.id ==> !e.Load? && !Rerecords(e, revocation.gateway, c)
    ensures var id, g := revocation.id, revocation.gateway;
            var revoked := Step(s, revocation, keyHash);
            var subject := Lookup(revoked.processes[id], g, revocation.credential);
            var d := Lookup(revoked.processes[id], g, c);
            subject.Some? && d.Some?
            && (c == revocation.credential
                || (d.value.deviceId.Some? && d.value.deviceId == subject.value.deviceId)) ==>
              var after := Run(revoked, events, keyHash);
              id in after.processes && SigningId(after.processes[id], g, c) == None
  {
    hide Step, Run;
    var id, g := revocation.id, revocation.gateway;
    var revoked := Step(s, revocation, keyHash);
    ProcessStays(s, revocation, keyHash);
    RevocationStopsDevice(s, revocation, keyHash, c);
    if IsRevoked(revoked.processes[id], g, c) {
      StaysUnsignable(revoked, events, keyHash, id, g, c);
    }
  }

  lemma ProcessStays(s: State, e: Event, keyHash: string)
    requires e.id in s.processes
    ensures e.id in Step(s, e, keyHash).processes
  {
  }

  /** The update revokes this record: it revokes the credential itself, or one whose device id,
      after what the file held was merged in, is this device's. */
  predicate Covers(s: State, e: Event, keyHash: string, g: string, c: string, device: string)
    requires e.Update? && e.id in s.processes
  {
    && e.change.Revoke? && e.gateway == g
    && (c == e.credential
        || (var subject := Lookup(Merge(s.processes[e.id], Stored(s, keyHash)), g, e.credential);
            subject.Some? && subject.value.deviceId == Some(device)))
  }

  /** The update reads the file, finds an active record there for the device under a credential
      the process does not know yet, and does not revoke it. */
  predicate ComesLate(s: State, e: Event, keyHash: string, g: string, c: string, device: string)
    requires e.Update? && e.id in s.processes
  {
    && e.locked && Lookup(s.processes[e.id], g, c).None?
    && Lookup(Stored(s, keyHash), g, c) == Some(Device(Some(device), false))
    && !Covers(s, e, keyHash, g, c, device)
  }

  /** What the promise does not cover is a credential the process does not know yet. With every
      record it knows for a device revoked, an update of any gateway makes the device sign under
      a credential that is not being recorded exactly when that credential comes late. */
  lemma LateCredentialSignsIff(s: State, e: Event, keyHash: string, g: string, c: string, device: string)
    requires Remembered(s) && e.Update? && e.id in s.processes && !Refused(e) && !Rerecords(e, g, c)
    requires forall k :: SigningId(s.processes[e.id], g, k) != Some(device)
    ensures SigningId(Step(s, e, keyHash).processes[e.id], g, c) == Some(device) <==>
      ComesLate(s, e, keyHash, g, c, device)
  {
    var memory := s.processes[e.id];
    KnownIsWellFormed(memory, g, c);
    hide Merge, Updated, ReadDeviceFile, AllWellFormed, ValidDeviceId;
    UpdatedLookup(memory, s, e, keyHash, g, c);
    MergeLookup(memory, if e.locked then Stored(s, keyHash) else map[], g, c);
    assert SigningId(memory, g, c) != Some(device);
  }

  /** Over all credentials of the gateway: the device signs again exactly when the update records
      it there, or some other credential comes late. */
  lemma DeviceSignsAgainIff(s: State, e: Event, keyHash: string, g: string, device: string)
    requires Remembered(s) && e.Update? && e.id in s.processes && !Refused(e)
    requires forall k :: SigningId(s.processes[e.id], g, k) != Some(device)
    ensures (exists c :: SigningId(Step(s, e, keyHash).processes[e.id], g, c) == Some(device)) <==>
      || (e.gateway == g && e.change == Record(device))
      || exists c :: !Rerecords(e, g, c) && ComesLate(s, e, keyHash, g, c, device)
  {
    hide Step, ComesLate, AllWellFormed;
    ProcessStays(s, e, keyHash);
    forall c | !Rerecords(e, g, c)
      ensures SigningId(Step(s, e, keyHash).processes[e.id], g, c) == Some(device) <==>
        ComesLate(s, e, keyHash, g, c, device)
    {
      LateCredentialSignsIff(s, e, keyHash, g, c, device);
    }
    if e.change.Record? {
      RecordedSigns(s, e, keyHash);
    }
  }

  /** A recorded credential signs with the id just recorded. */
  lemma RecordedSigns(s: State, e: Event, keyHash: string)
    requires e.Update? && e.id in s.processes && !Refused(e) && e.change.Record?
    ensures e.id in Step(s, e, keyHash).processes
         && SigningId(Step(s, e, keyHash).processes[e.id], e.gateway, e.credential) == Some(e.change.id)
  {
    hide Merge, Updated, ReadDeviceFile, ValidDeviceId;
    UpdatedLookup(s.processes[e.id], s, e, keyHash, e.gateway, e.credential);
  }

  lemma KnownIsWellFormed(memory: Devices, g: string, c: string)
    requires AllWellFormed(memory)
    ensures Lookup(memory, g, c).Some? ==> WellFormed(Lookup(memory, g, c).value)
  {
    hide WellFormed;
  }

  lemma StepStaysRevoked(s: State, e: Event, keyHash: string, id: nat, g: string, c: string)
    requires id in s.processes && IsRevoked(s.processes[id], g, c)
    requires e.id == id ==> !e.Load? && !Rerecords(e, g, c)
    ensures id in Step(s, e, keyHash).processes && IsRevoked(Step(s, e, keyHash).processes[id], g, c)
  {
    hide Merge, Updated, ReadDeviceFile;
    if e.Update? && e.id == id && !Refused(e) {
      UpdatedLookup(s.processes[id], s, e, keyHash, g, c);
      MergeLookup(s.processes[id], if e.locked then Stored(s, keyHash) else map[], g, c);
    }
  }

  /** A stored revocation reaches every process with its next locked update or start. */
  lemma RevocationSpreads(s: State, e: Event, keyHash: string, g: string, c: string)
    requires IsRevoked(Stored(s, keyHash), g, c)
    requires e.locked && (e.Load? || (e.id in s.processes && !Refused(e) && !Rerecords(e, g, c)))
    ensures var after := Step(s, e, keyHash);
            IsRevoked(after.processes[e.id], g, c) && SigningId(after.processes[e.id], g, c) == None
  {
    hide Merge, Updated, ReadDeviceFile;
    if e.Update? {
      UpdatedLookup(s.processes[e.id], s, e, keyHash, g, c);
      MergeLookup(s.processes[e.id], Stored(s, keyHash), g, c);
    }
  }

  /** A revocation that was saved outlives restarts too: until some process records a device for
      the credential, no process that has it revoked signs for it again, however often it or
      others start again. */
  lemma {:induction false} SavedRevocationStays(
    s: State, events: seq<Event>, keyHash: string, id: nat, g: string, c: string)
    requires Remembered(s) && IsRevoked(Stored(s, keyHash), g, c)
    requires id in s.processes && IsRevoked(s.processes[id], g, c)
    requires forall e :: e in events ==> !Rerecords(e, g, c)
    ensures var after := Run(s, events, keyHash);
            && IsRevoked(Stored(after, keyHash), g, c)
            && id in after.processes && IsRevoked(after.processes[id], g, c)
            && SigningId(after.processes[id], g, c) == None
    decreases |events|
  {
    if events != [] {
      var e := events[0];
      assert e in events && forall x :: x in events[1..] ==> x in events;
      StepIsRemembered(s, e, keyHash);
      StepKeepsStored(s, e, keyHash, g, c);
      if e.Load? && e.id == id {
        RestartIsRevoked(s, e, keyHash, g, c);
      } else {
        StepStaysRevoked(s, e, keyHash, id, g, c);
      }
      hide Step, Stored, Remembered;
      SavedRevocationStays(Step(s, e, keyHash), events[1..], keyHash, id, g, c);
    }
  }

  lemma RestartIsRevoked(s: State, e: Event, keyHash: string, g: string, c: string)
    requires IsRevoked(Stored(s, keyHash), g, c) && e.Load?
    requires e.id in s.processes && IsRevoked(s.processes[e.id], g, c)
    ensures var after := Step(s, e, keyHash);
            e.id in after.processes && IsRevoked(after.processes[e.id], g, c)
  {
  }

  /** Every device id a request is ever signed with has the form the gateway issues, whatever
      the file held to begin with. */
  lemma SignedIdsAreValid(s: State, events: seq<Event>, keyHash: string, id: nat, g: string, c: string)
    requires Remembered(s)
    ensures var after := Run(s, events, keyHash);
            id in after.processes && SigningId(after.processes[id], g, c).Some? ==>
              var device := SigningId(after.processes[id], g, c).value;
              && ValidDeviceId(device) && |device| == 25 && device[..3] == "cd_"
              && forall i :: 3 <= i < 25 ==> '0' <= device[i] <= '9' || 'A' <= device[i] <= 'Z'
                                             || 'a' <= device[i] <= 'z' || device[i] in "_-"
  {
    RunKeepsStored(s, events, keyHash, g, c);
    hide Run, ValidDeviceId;
  }
}
