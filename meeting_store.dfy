/**
 * The client's participant store: a record from participant id to participant
 * object, updated only by building new records with object spread.
 *
 * A JavaScript object is modelled as a map from its property names to values, so a
 * partial object (an `updates` argument, or an entry created by updating an id that
 * is not there) is a map with fewer keys, and `{...a, ...b}` is the map union `a + b`.
 */
module MeetingStore {
  import opened Wrappers

  datatype Field = Id | Username | IsAudioEnabled | IsVideoEnabled | IsScreenSharing | IsHost

  datatype Value = Str(s: string) | Bool(b: bool)

  type Entry = map<Field, Value>

  type Participants = map<string, Entry>

  /** A complete participant as the store's callers build it; `isHost` is optional. */
  datatype Participant = Participant(
    id: string,
    username: string,
    isAudioEnabled: bool,
    isVideoEnabled: bool,
    isScreenSharing: bool,
    isHost: Option<bool>)

  datatype MediaType = Audio | Video | Screen

  /** A participant spread into an object: one property per field, `isHost` only when it is given. */
  function AsEntry(p: Participant): (e: Entry)
    ensures e.Keys == if p.isHost.Some? then {Id, Username, IsAudioEnabled, IsVideoEnabled, IsScreenSharing, IsHost}
                      else {Id, Username, IsAudioEnabled, IsVideoEnabled, IsScreenSharing}
    ensures e[Id] == Str(p.id) && e[Username] == Str(p.username)
    ensures e[IsAudioEnabled] == Bool(p.isAudioEnabled) && e[IsVideoEnabled] == Bool(p.isVideoEnabled)
    ensures e[IsScreenSharing] == Bool(p.isScreenSharing)
    ensures p.isHost.Some? ==> e[IsHost] == Bool(p.isHost.value)
  {
    var base := map[Id := Str(p.id), Username := Str(p.username), IsAudioEnabled := Bool(p.isAudioEnabled),
                     IsVideoEnabled := Bool(p.isVideoEnabled), IsScreenSharing := Bool(p.isScreenSharing)];
    if p.isHost.Some? then base[IsHost := Bool(p.isHost.value)] else base
  }

  /** `state.participants[id]` spread into a new object: a missing entry spreads as `{}`. */
  function Current(ps: Participants, id: string): Entry {
    if id in ps then ps[id] else map[]
  }

  /** The flag defaults an added participant receives. */
  const MediaDefaults: Entry := map[IsAudioEnabled := Bool(true), IsVideoEnabled := Bool(true), IsScreenSharing := Bool(false)]

  /** The property `updateMediaState` writes for each media type. */
  function MediaField(t: MediaType): Field {
    match t
    case Audio => IsAudioEnabled
    case Video => IsVideoEnabled
    case Screen => IsScreenSharing
  }

  /** The initial store. */
  const Initial: Participants := map[]

  /**
   * `addParticipant`: the argument, then the media defaults, then whatever entry already
   * exists for that id, so an existing entry wins on every property it has.
   */
  function AddParticipant(ps: Participants, p: Participant): (r: Participants)
    ensures r.Keys == ps.Keys + {p.id}
    ensures forall id :: id in ps && id != p.id ==> r[id] == ps[id]
    ensures r[p.id].Keys == AsEntry(p).Keys + MediaDefaults.Keys + Current(ps, p.id).Keys
    ensures forall f :: f in r[p.id] ==>
      r[p.id][f] == if f in Current(ps, p.id) then Current(ps, p.id)[f]
                    else if f in MediaDefaults then MediaDefaults[f]
                    else AsEntry(p)[f]
  {
    ps[p.id := AsEntry(p) + MediaDefaults + Current(ps, p.id)]
  }

  /** A new participant starts with audio and video on and no screen share, whatever flags it came with. */
  lemma AddNewParticipant(ps: Participants, p: Participant)
    requires p.id !in ps
    ensures var e := AddParticipant(ps, p)[p.id];
      && e[IsAudioEnabled] == Bool(true) && e[IsVideoEnabled] == Bool(true) && e[IsScreenSharing] == Bool(false)
      && e[Id] == Str(p.id) && e[Username] == Str(p.username)
      && (IsHost in e <==> p.isHost.Some?)
  {
    assert Current(ps, p.id) == map[];
  }

  /** Adding an id that is already there keeps every property its entry has. */
  lemma AddExistingParticipant(ps: Participants, p: Participant)
    requires p.id in ps
    ensures forall f :: f in ps[p.id] ==> AddParticipant(ps, p)[p.id][f] == ps[p.id][f]
  {
  }

  /**
   * An existing entry that lacks a media flag (one created by updating an id before it was
   * added) gets the default for that flag, not the argument's value.
   */
  lemma AddExistingMissingFlag(ps: Participants, p: Participant, f: Field)
    requires p.id in ps && f in MediaDefaults && f !in ps[p.id]
    ensures AddParticipant(ps, p)[p.id][f] == MediaDefaults[f]
  {
  }

  /** The argument contributes only the properties neither the existing entry nor the defaults have. */
  lemma AddArgumentFillsGaps(ps: Participants, p: Participant)
    ensures var e := AddParticipant(ps, p)[p.id];
      forall f :: f in e && f !in Current(ps, p.id) && f !in MediaDefaults ==> e[f] == AsEntry(p)[f]
  {
  }

  /** `removeParticipant`: the record without that key. */
  function RemoveParticipant(ps: Participants, id: string): (r: Participants)
    ensures r.Keys == ps.Keys - {id}
    ensures forall other :: other in r ==> r[other] == ps[other]
  {
    ps - {id}
  }

  /** Removing an id that is not there leaves the store as it was. */
  lemma RemoveAbsentParticipant(ps: Participants, id: string)
    requires id !in ps
    ensures RemoveParticipant(ps, id) == ps
  {
  }

  /** `updateParticipant`: the properties present in `updates` replace those of the entry. */
  function UpdateParticipant(ps: Participants, id: string, updates: Entry): (r: Participants)
    ensures r.Keys == ps.Keys + {id}
    ensures forall other :: other in ps && other != id ==> r[other] == ps[other]
    ensures r[id].Keys == Current(ps, id).Keys + updates.Keys
    ensures forall f :: f in updates ==> r[id][f] == updates[f]
    ensures forall f :: f in Current(ps, id) && f !in updates ==> r[id][f] == Current(ps, id)[f]
  {
    ps[id := Current(ps, id) + updates]
  }

  /** `updateMediaState`: one media flag of one entry is set. */
  function UpdateMediaState(ps: Participants, id: string, t: MediaType, enabled: bool): (r: Participants)
    ensures r.Keys == ps.Keys + {id}
    ensures forall other :: other in ps && other != id ==> r[other] == ps[other]
    ensures r[id].Keys == Current(ps, id).Keys + {MediaField(t)}
    ensures r[id][MediaField(t)] == Bool(enabled)
    ensures forall f :: f in Current(ps, id) && f != MediaField(t) ==> r[id][f] == Current(ps, id)[f]
  {
    UpdateParticipant(ps, id, map[MediaField(t) := Bool(enabled)])
  }

  /** `clearParticipants`: the empty record, whatever the store held. */
  function ClearParticipants(ps: Participants): (r: Participants)
    ensures forall id :: id !in r
  {
    map[]
  }

  /** Clearing returns the store to its initial, empty state. */
  lemma ClearIsInitial(ps: Participants)
    ensures ClearParticipants(ps) == Initial
  {
  }

  /** The three media types name three different properties. */
  lemma MediaFieldInjective(s: MediaType, t: MediaType)
    ensures MediaField(s) == MediaField(t) <==> s == t
  {
  }

  /** Setting a media flag twice to the same value is the same as setting it once. */
  lemma UpdateMediaStateIdempotent(ps: Participants, id: string, t: MediaType, enabled: bool)
    ensures var once := UpdateMediaState(ps, id, t, enabled);
      UpdateMediaState(once, id, t, enabled) == once
  {
    var once := UpdateMediaState(ps, id, t, enabled);
    var twice := UpdateMediaState(once, id, t, enabled);
    assert twice[id] == once[id];
  }

  /** Adding a participant that is already there changes nothing when its entry already has every property. */
  lemma AddExistingComplete(ps: Participants, p: Participant)
    requires p.id in ps
    requires AsEntry(p).Keys + MediaDefaults.Keys <= ps[p.id].Keys
    ensures AddParticipant(ps, p) == ps
  {
    var r := AddParticipant(ps, p);
    assert r[p.id] == ps[p.id];
  }

  /** After `addParticipant`, removing the same id leaves the store as it was without that id. */
  lemma AddThenRemove(ps: Participants, p: Participant)
    ensures RemoveParticipant(AddParticipant(ps, p), p.id) == RemoveParticipant(ps, p.id)
  {
  }
}
