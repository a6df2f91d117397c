/** Tracks, offers, selections and admissions of the handshake
    (crates/jackstay/src/handshake.rs). A descriptor stands for what decoding its bytes
    gives, absent when they do not decode. */
module TrackOffer {
  import opened Options
  import opened AudioFormat

  const MAX_TRACKS := 64

  datatype Kind = Video | Input | Affordances | Playback | Recording | Other(name: string)

  datatype Direction = FromSource | ToSource | Both

  datatype Track = Track(id: nat, kind: Kind, direction: Direction, title: string, descriptor: Option<Descriptor>)

  /** An audio ring the host owns. Handles to one ring share its identity. */
  datatype Ring = Ring(id: nat, recording: bool, geometry: Geometry, identity: nat)

  datatype Selected = Selected(id: nat, required: bool, write: bool)

  datatype Refusal = Unknown | Unavailable | NotWritable

  datatype Admission = Admission(id: nat, refusal: Option<Refusal>)

  predicate IsAudio(k: Kind) {
    k.Playback? || k.Recording?
  }

  /** At most one track of these kinds may be offered. */
  predicate IsSingle(k: Kind) {
    k.Video? || k.Input? || k.Affordances?
  }

  // ---- Application kinds ----

  predicate LabelChar(c: char) {
    'a' <= c <= 'z' || '0' <= c <= '9' || c == '-'
  }

  predicate LabelChars(part: string) {
    forall i | 0 <= i < |part| :: LabelChar(part[i])
  }

  predicate GoodLabel(part: string) {
    part != "" && LabelChars(part)
  }

  /** The pieces of a name between its dots. */
  function Split(name: string): (parts: seq<string>)
    ensures parts != []
  {
    if name == "" then [""]
    else
      var rest := Split(name[1..]);
      if name[0] == '.' then [""] + rest else [[name[0]] + rest[0]] + rest[1..]
  }

  predicate AllGood(parts: seq<string>) {
    forall i | 0 <= i < |parts| :: GoodLabel(parts[i])
  }

  predicate ReverseDomain(name: string) {
    '.' in name && AllGood(Split(name))
  }

  predicate NameChars(name: string) {
    forall i | 0 <= i < |name| :: LabelChar(name[i]) || name[i] == '.'
  }

  predicate NoDoubleDot(name: string) {
    forall i | 0 < i < |name| :: !(name[i - 1] == '.' && name[i] == '.')
  }

  /** What may follow a label character. */
  predicate Continues(name: string) {
    NameChars(name) && NoDoubleDot(name) && (name != "" ==> name[|name| - 1] != '.')
  }

  /** Character by character: every character is a label's or a dot, and every dot stands
      between two label characters. */
  predicate DotsSeparate(name: string) {
    name != "" && name[0] != '.' && Continues(name)
  }

  predicate GoodAfterFirst(parts: seq<string>)
    requires parts != []
  {
    LabelChars(parts[0]) && AllGood(parts[1..])
  }

  /** The first label is empty exactly when the name is empty or begins with a dot. */
  lemma FirstLabel(name: string)
    ensures Split(name)[0] == "" <==> name == "" || name[0] == '.'
  {
  }

  lemma ContinuesStep(name: string)
    requires name != ""
    ensures Continues(name) <==>
            && Continues(name[1..]) && (LabelChar(name[0]) || name[0] == '.')
            && (name[0] == '.' ==> name[1..] != "" && name[1..][0] != '.')
  {
    var rest := name[1..];
    assert name == [name[0]] + rest;
    assert NameChars(name) <==> (LabelChar(name[0]) || name[0] == '.') && NameChars(rest) by {
      if NameChars(name) {
        assert forall i | 0 <= i < |rest| :: rest[i] == name[i + 1];
      }
    }
    assert NoDoubleDot(name) <==> NoDoubleDot(rest) && (rest != "" ==> !(name[0] == '.' && rest[0] == '.')) by {
      if NoDoubleDot(name) {
        assert forall i | 0 <= i < |rest| :: rest[i] == name[i + 1];
      } else {
        var i :| 0 < i < |name| && name[i - 1] == '.' && name[i] == '.';
        assert i > 1 ==> rest[i - 1] == name[i] && rest[(i - 1) - 1] == name[i - 1];
      }
    }
  }

  lemma LabelGrows(c: char, part: string)
    ensures LabelChars([c] + part) <==> LabelChar(c) && LabelChars(part)
  {
    var longer := [c] + part;
    if LabelChars(longer) {
      assert LabelChar(longer[0]);
      assert forall i | 0 <= i < |part| :: part[i] == longer[i + 1];
    }
  }

  lemma FirstOfAll(parts: seq<string>)
    requires parts != []
    ensures AllGood(parts) <==> parts[0] != "" && GoodAfterFirst(parts)
  {
    assert parts == [parts[0]] + parts[1..];
  }

  lemma {:induction false} SplitContinues(name: string)
    ensures GoodAfterFirst(Split(name)) <==> Continues(name)
  {
    if name != "" {
      var rest := Split(name[1..]);
      SplitContinues(name[1..]);
      ContinuesStep(name);
      if name[0] == '.' {
        assert Split(name)[1..] == rest;
        FirstOfAll(rest);
        FirstLabel(name[1..]);
      } else {
        assert Split(name)[1..] == rest[1..];
        LabelGrows(name[0], rest[0]);
      }
    }
  }

  /** Splitting at the dots accepts exactly the names whose every dot separates labels. */
  lemma GoodLabelsSeparate(name: string)
    ensures AllGood(Split(name)) <==> DotsSeparate(name)
  {
    FirstOfAll(Split(name));
    FirstLabel(name);
    SplitContinues(name);
  }

  predicate OfferableKind(k: Kind) {
    k.Other? ==> ReverseDomain(k.name)
  }

  // ---- Lookups: the first match, as both sides search ----

  function FindTrack(tracks: seq<Track>, id: nat): (t: Option<Track>)
    ensures t.Some? ==> t.value in tracks && t.value.id == id
    ensures t.None? ==> forall i | 0 <= i < |tracks| :: tracks[i].id != id
  {
    if tracks == [] then None
    else if tracks[0].id == id then Some(tracks[0])
    else FindTrack(tracks[1..], id)
  }

  function FindRing(rings: seq<Ring>, id: nat): (r: Option<Ring>)
    ensures r.Some? ==> r.value in rings && r.value.id == id
    ensures r.None? ==> forall i | 0 <= i < |rings| :: rings[i].id != id
  {
    if rings == [] then None
    else if rings[0].id == id then Some(rings[0])
    else FindRing(rings[1..], id)
  }

  /** The first ring with the identifier in the track's own direction. */
  function FindRingOf(rings: seq<Ring>, id: nat, recording: bool): (r: Option<Ring>)
    ensures r.Some? ==> r.value in rings && r.value.id == id && r.value.recording == recording
  {
    if rings == [] then None
    else if rings[0].id == id && rings[0].recording == recording then Some(rings[0])
    else FindRingOf(rings[1..], id, recording)
  }

  /** When the first ring by identifier has the right direction, both lookups find it. */
  lemma {:induction false} LookupsAgree(rings: seq<Ring>, id: nat, recording: bool)
    requires FindRing(rings, id).Some? && FindRing(rings, id).value.recording == recording
    ensures FindRingOf(rings, id, recording) == FindRing(rings, id)
  {
    if rings[0].id != id {
      LookupsAgree(rings[1..], id, recording);
    }
  }

  /** Both lookups find the first ring that matches. */
  lemma {:induction false} FirstRing(rings: seq<Ring>, id: nat, i: nat)
    requires i < |rings| && rings[i].id == id && forall j | 0 <= j < i :: rings[j].id != id
    ensures FindRing(rings, id) == Some(rings[i])
  {
    if i > 0 {
      assert forall j | 0 <= j < i - 1 :: rings[1..][j] == rings[j + 1];
      FirstRing(rings[1..], id, i - 1);
    }
  }

  predicate IsRingOf(ring: Ring, id: nat, recording: bool) {
    ring.id == id && ring.recording == recording
  }

  lemma {:induction false} FirstRingOf(rings: seq<Ring>, id: nat, recording: bool) returns (i: nat)
    ensures i <= |rings| && forall j | 0 <= j < i :: !IsRingOf(rings[j], id, recording)
    ensures if i < |rings| then IsRingOf(rings[i], id, recording) && FindRingOf(rings, id, recording) == Some(rings[i])
            else FindRingOf(rings, id, recording) == None
  {
    i := 0;
    if rings != [] && !IsRingOf(rings[0], id, recording) {
      var k := FirstRingOf(rings[1..], id, recording);
      i := k + 1;
      forall j | 0 <= j < i
        ensures !IsRingOf(rings[j], id, recording)
      {
        if j > 0 {
          assert rings[1..][j - 1] == rings[j];
        }
      }
    }
  }

  // ---- Valid offers and selections ----

  predicate Offerable(t: Track, rings: seq<Ring>) {
    && OfferableKind(t.kind)
    && (IsAudio(t.kind) ==>
          && t.direction == (if t.kind.Recording? then ToSource else FromSource)
          && t.descriptor.Some?
          && FindRingOf(rings, t.id, t.kind.Recording?).Some?
          && Fits(FindRingOf(rings, t.id, t.kind.Recording?).value.geometry, t.descriptor.value))
  }

  function AudioCount(tracks: seq<Track>): nat {
    if tracks == [] then 0
    else AudioCount(tracks[..|tracks| - 1]) + if IsAudio(tracks[|tracks| - 1].kind) then 1 else 0
  }

  ghost predicate UniqueIds(tracks: seq<Track>) {
    forall i, j | 0 <= i < j < |tracks| :: tracks[i].id != tracks[j].id
  }

  ghost predicate SingleKinds(tracks: seq<Track>) {
    forall i, j | 0 <= i < j < |tracks| :: IsSingle(tracks[i].kind) ==> tracks[i].kind != tracks[j].kind
  }

  ghost predicate ValidOffer(tracks: seq<Track>, rings: seq<Ring>) {
    && AudioCount(tracks) <= MAX_TRACKS && UniqueIds(tracks) && SingleKinds(tracks)
    && forall i | 0 <= i < |tracks| :: Offerable(tracks[i], rings)
  }

  ghost predicate ValidSelection(tracks: seq<Track>, selection: seq<Selected>) {
    && |selection| <= |tracks|
    && forall i, j | 0 <= i < j < |selection| :: selection[i].id != selection[j].id
  }

  /** The first ring of the track's identifier and direction has the offered geometry. */
  ghost predicate RingFits(rings: seq<Ring>, id: nat, recording: bool, descriptor: Option<Descriptor>) {
    exists i | 0 <= i < |rings| ::
      && IsRingOf(rings[i], id, recording) && descriptor.Some? && Fits(rings[i].geometry, descriptor.value)
      && forall j | 0 <= j < i :: !IsRingOf(rings[j], id, recording)
  }

  /** Which track may be offered, kind by kind. */
  lemma OfferableByKind(t: Track, rings: seq<Ring>)
    ensures Offerable(t, rings) <==>
            match t.kind
            case Playback => t.direction == FromSource && RingFits(rings, t.id, false, t.descriptor)
            case Recording => t.direction == ToSource && RingFits(rings, t.id, true, t.descriptor)
            case Other(name) => '.' in name && DotsSeparate(name)
            case Video => true
            case Input => true
            case Affordances => true
  {
    match t.kind
    case Other(name) => GoodLabelsSeparate(name);
    case Playback => RingOfTrack(t, rings, false);
    case Recording => RingOfTrack(t, rings, true);
    case _ =>
  }

  lemma RingOfTrack(t: Track, rings: seq<Ring>, recording: bool)
    ensures RingFits(rings, t.id, recording, t.descriptor) <==>
            && t.descriptor.Some? && FindRingOf(rings, t.id, recording).Some?
            && Fits(FindRingOf(rings, t.id, recording).value.geometry, t.descriptor.value)
  {
    var i := FirstRingOf(rings, t.id, recording);
    if RingFits(rings, t.id, recording, t.descriptor) {
      var k :| 0 <= k < |rings| && IsRingOf(rings[k], t.id, recording) && t.descriptor.Some?
               && Fits(rings[k].geometry, t.descriptor.value)
               && forall j | 0 <= j < k :: !IsRingOf(rings[j], t.id, recording);
      assert k == i;
    } else if i < |rings| {
      assert IsRingOf(rings[i], t.id, recording);
    }
  }

  ghost function AudioPlaces(tracks: seq<Track>): set<nat> {
    set i | 0 <= i < |tracks| && (tracks[i].kind.Playback? || tracks[i].kind.Recording?)
  }

  lemma {:induction false} AudioCounted(tracks: seq<Track>)
    ensures AudioCount(tracks) == |AudioPlaces(tracks)|
  {
    if tracks == [] {
      assert AudioPlaces(tracks) == {};
    } else {
      var last := |tracks| - 1;
      AudioCounted(tracks[..last]);
      assert AudioPlaces(tracks) == AudioPlaces(tracks[..last]) + if IsAudio(tracks[last].kind) then {last} else {};
    }
  }

  /** Which offer is valid: at most 64 audio tracks, no identifier twice, one video, input
      and affordances track at most, and every track offerable. */
  lemma OfferRules(tracks: seq<Track>, rings: seq<Ring>)
    ensures ValidOffer(tracks, rings) <==>
            && |AudioPlaces(tracks)| <= 64
            && (forall i, j | 0 <= i < j < |tracks| :: tracks[i].id != tracks[j].id)
            && (forall i, j | 0 <= i < j < |tracks| && tracks[i].kind == tracks[j].kind ::
                  tracks[i].kind.Playback? || tracks[i].kind.Recording? || tracks[i].kind.Other?)
            && (forall i | 0 <= i < |tracks| :: Offerable(tracks[i], rings))
  {
    AudioCounted(tracks);
  }

  /** The host's check of its own offer. */
  method CheckOffer(tracks: seq<Track>, rings: seq<Ring>) returns (ok: bool)
    ensures ok <==> ValidOffer(tracks, rings)
  {
    if AudioCount(tracks) > MAX_TRACKS {
      return false;
    }
    var ids: set<nat>, kinds: set<Kind> := {}, {};
    for k := 0 to |tracks|
      invariant ids == set i | 0 <= i < k :: tracks[i].id
      invariant kinds == set i | 0 <= i < k && IsSingle(tracks[i].kind) :: tracks[i].kind
      invariant UniqueIds(tracks[..k])
      invariant SingleKinds(tracks[..k])
      invariant forall i | 0 <= i < k :: Offerable(tracks[i], rings)
    {
      assert tracks[..k + 1] == tracks[..k] + [tracks[k]];
      var t := tracks[k];
      if t.id in ids || !Offerable(t, rings) || (IsSingle(t.kind) && t.kind in kinds) {
        return false;
      }
      ids := ids + {t.id};
      if IsSingle(t.kind) {
        kinds := kinds + {t.kind};
      }
    }
    assert tracks[..|tracks|] == tracks;
    return true;
  }

  /** The check both sides make of a selection. */
  method CheckSelection(tracks: seq<Track>, selection: seq<Selected>) returns (ok: bool)
    ensures ok <==> ValidSelection(tracks, selection)
  {
    if |selection| > |tracks| {
      return false;
    }
    var ids: set<nat> := {};
    for k := 0 to |selection|
      invariant ids == set i | 0 <= i < k :: selection[i].id
      invariant forall i, j | 0 <= i < j < k :: selection[i].id != selection[j].id
    {
      if selection[k].id in ids {
        return false;
      }
      ids := ids + {selection[k].id};
    }
    return true;
  }
}
