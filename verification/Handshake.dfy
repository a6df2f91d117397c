/** The track handshake (crates/jackstay/src/handshake.rs): the host answers a selection and
    passes channels, a doorbell and audio rings; the consumer derives on its own which
    objects to expect. Messages and transfers arrive whole and in order; operating-system
    failures are not modelled, except that a ring with no writer has nothing to send. */
module Handshake {
  import opened Options
  import opened AudioFormat
  import opened TrackOffer

  // ---- Answers ----

  /** The answers the rules allow to one selected track while `leased` rings have a writer
      and other handshakes may take or free recording rings at any time. */
  predicate Answer(tracks: seq<Track>, rings: seq<Ring>, hasTarget: bool, leased: set<nat>,
                   s: Selected, r: Option<Refusal>) {
    match FindTrack(tracks, s.id)
    case None => r == Some(Unknown)
    case Some(t) =>
      if s.write && t.direction == FromSource then r == Some(NotWritable)
      else if t.kind.Input? && (!s.write || !hasTarget) then r == Some(Unavailable)
      else if t.kind.Recording? then
        || r == Some(Unavailable)
        || (r == None && s.write && FindRing(rings, t.id).Some? && Claimable(FindRing(rings, t.id).value, leased))
      else r == None
  }

  /** A ring this handshake may be the writer of. */
  predicate Claimable(ring: Ring, leased: set<nat>) {
    ring.recording && ring.identity in leased
  }

  ghost predicate Answers(tracks: seq<Track>, rings: seq<Ring>, hasTarget: bool, leased: set<nat>,
                          selection: seq<Selected>, admissions: seq<Admission>) {
    && |admissions| == |selection|
    && forall i | 0 <= i < |selection| ::
         && admissions[i].id == selection[i].id
         && Answer(tracks, rings, hasTarget, leased, selection[i], admissions[i].refusal)
  }

  /** A required track was refused. */
  predicate RefusedAt(selection: seq<Selected>, admissions: seq<Admission>, i: nat)
    requires i < |selection| == |admissions|
  {
    selection[i].required && admissions[i].refusal.Some?
  }

  /** The place from `k` on of the first required track that was refused, or the end. */
  function FirstRefused(selection: seq<Selected>, admissions: seq<Admission>, k: nat): (i: nat)
    requires k <= |selection| == |admissions|
    ensures k <= i <= |selection| && (i < |selection| ==> RefusedAt(selection, admissions, i))
    ensures forall j | k <= j < i :: !RefusedAt(selection, admissions, j)
    decreases |selection| - k
  {
    if k == |selection| || RefusedAt(selection, admissions, k) then k else FirstRefused(selection, admissions, k + 1)
  }

  /** The first refusal of a required track: what both sides look for. */
  function FirstRefusal(selection: seq<Selected>, admissions: seq<Admission>): (r: Option<Admission>)
    requires |selection| == |admissions|
    ensures r.Some? ==> r.value in admissions && r.value.refusal.Some?
    ensures r.None? <==> forall i | 0 <= i < |selection| :: !RefusedAt(selection, admissions, i)
  {
    var i := FirstRefused(selection, admissions, 0);
    if i == |selection| then None else Some(admissions[i])
  }

  // ---- What crosses the wire ----

  datatype Purpose = InputEnd | AffordancesEnd | TracksEnd

  datatype Object = ChannelEnd(purpose: Purpose) | BellPage | BellWake | RingObject(geometry: Geometry, writable: bool)

  /** The admitted tracks that carry a channel, in selection order. */
  function ChannelKinds(tracks: seq<Track>, admissions: seq<Admission>): seq<Purpose> {
    if admissions == [] then []
    else
      var rest := ChannelKinds(tracks, admissions[1..]);
      var t := FindTrack(tracks, admissions[0].id);
      if admissions[0].refusal.Some? || t.None? then rest
      else if t.value.kind.Input? then [InputEnd] + rest
      else if t.value.kind.Affordances? then [AffordancesEnd] + rest
      else rest
  }

  /** The first audio track with the identifier. */
  function FindAudio(tracks: seq<Track>, id: nat): (t: Option<Track>)
    ensures t.Some? ==> t.value in tracks && t.value.id == id && IsAudio(t.value.kind)
    ensures t.None? ==> forall i | 0 <= i < |tracks| :: !(tracks[i].id == id && IsAudio(tracks[i].kind))
  {
    if tracks == [] then None
    else if tracks[0].id == id && IsAudio(tracks[0].kind) then Some(tracks[0])
    else FindAudio(tracks[1..], id)
  }

  /** The admitted audio tracks, in selection order. */
  function AudioTracks(tracks: seq<Track>, admissions: seq<Admission>): (audio: seq<Track>)
    ensures forall i | 0 <= i < |audio| :: audio[i] in tracks && IsAudio(audio[i].kind)
  {
    if admissions == [] then []
    else
      var rest := AudioTracks(tracks, admissions[1..]);
      var t := FindAudio(tracks, admissions[0].id);
      if admissions[0].refusal.Some? || t.None? then rest else [t.value] + rest
  }

  predicate HasVideo(tracks: seq<Track>, id: nat) {
    exists i | 0 <= i < |tracks| :: tracks[i].id == id && tracks[i].kind.Video?
  }

  predicate VideoAt(tracks: seq<Track>, admissions: seq<Admission>, i: nat)
    requires i < |admissions|
  {
    admissions[i].refusal.None? && HasVideo(tracks, admissions[i].id)
  }

  /** The first place from `k` on where video was admitted, if it was. */
  function VideoFrom(tracks: seq<Track>, admissions: seq<Admission>, k: nat): (p: Option<nat>)
    requires k <= |admissions|
    ensures p.Some? ==> k <= p.value < |admissions| && VideoAt(tracks, admissions, p.value)
    ensures forall i | k <= i < (if p.Some? then p.value else |admissions|) :: !VideoAt(tracks, admissions, i)
    decreases |admissions| - k
  {
    if k == |admissions| then None
    else if VideoAt(tracks, admissions, k) then Some(k)
    else VideoFrom(tracks, admissions, k + 1)
  }

  /** Where video was admitted in the selection: its doorbell hint bit. */
  function VideoPosition(tracks: seq<Track>, admissions: seq<Admission>): Option<nat> {
    VideoFrom(tracks, admissions, 0)
  }

  /** What the host has to send for a ring: a recording ring only while it has a writer. */
  function RingFd(ring: Ring, leased: set<nat>): Option<Object> {
    if ring.recording && ring.identity !in leased then None
    else Some(RingObject(ring.geometry, ring.recording))
  }

  function RingFds(rings: seq<Ring>, leased: set<nat>): Option<seq<Object>> {
    if rings == [] then Some([])
    else
      var first, rest := RingFd(rings[0], leased), RingFds(rings[1..], leased);
      if first.None? || rest.None? then None else Some([first.value] + rest.value)
  }

  ghost predicate AnyPlayback(rings: seq<Ring>) {
    exists i | 0 <= i < |rings| :: !rings[i].recording
  }

  /** The host's rings for a list of admitted audio tracks, looked up by identifier alone. */
  function RingsOf(rings: seq<Ring>, audio: seq<Track>): (found: seq<Ring>)
    requires forall i | 0 <= i < |audio| :: FindRing(rings, audio[i].id).Some?
    ensures |found| == |audio|
    ensures forall i | 0 <= i < |audio| :: found[i] == FindRing(rings, audio[i].id).value
  {
    if audio == [] then [] else [FindRing(rings, audio[0].id).value] + RingsOf(rings, audio[1..])
  }

  ghost function Channels(purposes: seq<Purpose>): (transfers: seq<seq<Object>>)
    ensures |transfers| == |purposes|
    ensures forall i | 0 <= i < |purposes| :: transfers[i] == [ChannelEnd(purposes[i])]
  {
    seq(|purposes|, i requires 0 <= i < |purposes| => [ChannelEnd(purposes[i])])
  }

  // ---- The consumer's expectations ----

  datatype Expected = ExpectChannel(purpose: Purpose) | ExpectPage | ExpectWake | ExpectRing(track: Track)

  /** The object is the one meant: the channel's right end, and for a ring one that maps,
      in the track's direction, with exactly the geometry the offer described. */
  predicate Meets(o: Object, e: Expected) {
    match e
    case ExpectChannel(p) => o == ChannelEnd(p)
    case ExpectPage => o == BellPage
    case ExpectWake => o == BellWake
    case ExpectRing(t) => o.RingObject? && o.writable == t.kind.Recording? && Mapped(t, o)
  }

  predicate Mapped(t: Track, o: Object) {
    && o.RingObject? && (t.kind.Recording? ==> o.writable) && t.descriptor.Some?
    && MapRing(HeaderOf(o.geometry)) == Some(o.geometry) && Fits(o.geometry, t.descriptor.value)
  }

  ghost predicate TransferMeets(objects: seq<Object>, wanted: seq<Expected>) {
    |objects| == |wanted| && forall i | 0 <= i < |objects| :: Meets(objects[i], wanted[i])
  }

  ghost predicate AllMeet(transfers: seq<seq<Object>>, wanted: seq<seq<Expected>>) {
    |transfers| == |wanted| && forall i | 0 <= i < |transfers| :: TransferMeets(transfers[i], wanted[i])
  }

  ghost predicate AnyPlaybackTrack(audio: seq<Track>) {
    exists i | 0 <= i < |audio| :: audio[i].kind.Playback?
  }

  ghost function ChannelWants(purposes: seq<Purpose>): (wanted: seq<seq<Expected>>)
    ensures |wanted| == |purposes|
    ensures forall i | 0 <= i < |purposes| :: wanted[i] == [ExpectChannel(purposes[i])]
  {
    seq(|purposes|, i requires 0 <= i < |purposes| => [ExpectChannel(purposes[i])])
  }

  ghost function WantRings(audio: seq<Track>): (wanted: seq<Expected>)
    ensures |wanted| == |audio|
    ensures forall i | 0 <= i < |audio| :: wanted[i] == ExpectRing(audio[i])
  {
    seq(|audio|, i requires 0 <= i < |audio| => ExpectRing(audio[i]))
  }

  ghost function RingWants(audio: seq<Track>, bell: bool): seq<Expected> {
    (if bell then [ExpectPage, ExpectWake] else []) + WantRings(audio)
  }

  /** Whether the consumer expects a doorbell. */
  ghost predicate Bell(tracks: seq<Track>, admissions: seq<Admission>) {
    VideoPosition(tracks, admissions).Some? || AnyPlaybackTrack(AudioTracks(tracks, admissions))
  }

  /** What the consumer expects, transfer by transfer. */
  ghost function Wants(tracks: seq<Track>, admissions: seq<Admission>): seq<seq<Expected>> {
    var purposes, audio := ChannelKinds(tracks, admissions), AudioTracks(tracks, admissions);
    var bell := Bell(tracks, admissions);
    ChannelWants(purposes)
    + [[ExpectChannel(TracksEnd)]]
    + if audio == [] && !bell then [] else [RingWants(audio, bell)]
  }

  /** Every offered audio track has some ring with its identifier. */
  ghost predicate HaveRings(tracks: seq<Track>, rings: seq<Ring>) {
    forall i | 0 <= i < |tracks| :: IsAudio(tracks[i].kind) ==> FindRing(rings, tracks[i].id).Some?
  }

  /** What the host sends, transfer by transfer; None when a ring has nothing to send. */
  ghost function Sends(tracks: seq<Track>, rings: seq<Ring>, leased: set<nat>, admissions: seq<Admission>)
    : Option<seq<seq<Object>>>
    requires HaveRings(tracks, rings)
  {
    var audio := AudioTracks(tracks, admissions);
    var found := RingsOf(rings, audio);
    var bell := VideoPosition(tracks, admissions).Some? || AnyPlayback(found);
    var fds := RingFds(found, leased);
    if fds.None? then None
    else
      var objects := (if bell then [BellPage, BellWake] else []) + fds.value;
      Some(Channels(ChannelKinds(tracks, admissions)) + [[ChannelEnd(TracksEnd)]]
           + if objects == [] then [] else [objects])
  }

  // ---- When the two sides agree ----

  /** Rings as the host created them: every consumer can map them. */
  ghost predicate Created(rings: seq<Ring>) {
    forall i | 0 <= i < |rings| :: MapRing(HeaderOf(rings[i].geometry)) == Some(rings[i].geometry)
  }

  /** No offered playback track's first ring by identifier is a recording ring. */
  ghost predicate Resolves(tracks: seq<Track>, rings: seq<Ring>) {
    forall i | 0 <= i < |tracks| ::
      tracks[i].kind.Playback? && FindRing(rings, tracks[i].id).Some? ==>
        !FindRing(rings, tracks[i].id).value.recording
  }

  /** One ring per identifier is enough. */
  lemma OneRingPerIdResolves(tracks: seq<Track>, rings: seq<Ring>)
    requires ValidOffer(tracks, rings)
    requires forall i, j | 0 <= i < j < |rings| :: rings[i].id != rings[j].id
    ensures Resolves(tracks, rings)
  {
    forall i | 0 <= i < |tracks| && tracks[i].kind.Playback? && FindRing(rings, tracks[i].id).Some?
      ensures !FindRing(rings, tracks[i].id).value.recording
    {
      assert Offerable(tracks[i], rings);
      var own := FindRingOf(rings, tracks[i].id, false).value;
      assert own in rings && FindRing(rings, tracks[i].id).value in rings;
    }
  }

  lemma OfferedAudioHasRing(tracks: seq<Track>, rings: seq<Ring>)
    requires ValidOffer(tracks, rings)
    ensures HaveRings(tracks, rings)
  {
    forall i | 0 <= i < |tracks| && IsAudio(tracks[i].kind)
      ensures FindRing(rings, tracks[i].id).Some?
    {
      assert Offerable(tracks[i], rings);
    }
  }

  /** The ring found for the track has something to send, and it is what the track needs. */
  ghost predicate Served(rings: seq<Ring>, leased: set<nat>, t: Track) {
    var ring := FindRing(rings, t.id);
    && ring.Some? && ring.value.recording == t.kind.Recording?
    && var fd := RingFd(ring.value, leased);
       fd.Some? && Meets(fd.value, ExpectRing(t))
  }

  ghost predicate AudioServed(rings: seq<Ring>, leased: set<nat>, audio: seq<Track>) {
    forall i | 0 <= i < |audio| :: Served(rings, leased, audio[i])
  }

  lemma {:induction false} UniqueFind(tracks: seq<Track>, t: Track)
    requires UniqueIds(tracks) && t in tracks
    ensures FindTrack(tracks, t.id) == Some(t)
  {
    if tracks[0] != t {
      assert t in tracks[1..];
      var k :| 0 <= k < |tracks| && tracks[k] == t;
      assert tracks[0].id != tracks[k].id;
      assert UniqueIds(tracks[1..]) by {
        assert forall i | 0 <= i < |tracks| - 1 :: tracks[1..][i] == tracks[i + 1];
      }
      UniqueFind(tracks[1..], t);
    }
  }

  /** An admitted audio track is served. */
  lemma AdmittedIsServed(
    tracks: seq<Track>, rings: seq<Ring>, hasTarget: bool, leased: set<nat>, s: Selected, t: Track)
    requires ValidOffer(tracks, rings) && Resolves(tracks, rings) && Created(rings)
    requires Answer(tracks, rings, hasTarget, leased, s, None) && FindAudio(tracks, s.id) == Some(t)
    ensures Served(rings, leased, t)
  {
    UniqueFind(tracks, t);
    var k :| 0 <= k < |tracks| && tracks[k] == t;
    assert Offerable(tracks[k], rings);
    var ring := FindRing(rings, t.id).value;
    assert ring.recording == t.kind.Recording?;
    LookupsAgree(rings, t.id, t.kind.Recording?);
    var i :| 0 <= i < |rings| && rings[i] == ring;
  }

  lemma AnswersTail(tracks: seq<Track>, rings: seq<Ring>, hasTarget: bool, leased: set<nat>,
                    selection: seq<Selected>, admissions: seq<Admission>)
    requires Answers(tracks, rings, hasTarget, leased, selection, admissions) && selection != []
    ensures Answers(tracks, rings, hasTarget, leased, selection[1..], admissions[1..])
  {
    forall i | 0 <= i < |selection| - 1
      ensures admissions[1..][i].id == selection[1..][i].id
      ensures Answer(tracks, rings, hasTarget, leased, selection[1..][i], admissions[1..][i].refusal)
    {
      assert selection[1..][i] == selection[i + 1] && admissions[1..][i] == admissions[i + 1];
    }
  }

  lemma {:induction false} AllServed(
    tracks: seq<Track>, rings: seq<Ring>, hasTarget: bool, leased: set<nat>,
    selection: seq<Selected>, admissions: seq<Admission>)
    requires ValidOffer(tracks, rings) && Resolves(tracks, rings) && Created(rings)
    requires Answers(tracks, rings, hasTarget, leased, selection, admissions)
    ensures AudioServed(rings, leased, AudioTracks(tracks, admissions))
  {
    if admissions != [] {
      AnswersTail(tracks, rings, hasTarget, leased, selection, admissions);
      AllServed(tracks, rings, hasTarget, leased, selection[1..], admissions[1..]);
      var t := FindAudio(tracks, admissions[0].id);
      if admissions[0].refusal.None? && t.Some? {
        AdmittedIsServed(tracks, rings, hasTarget, leased, selection[0], t.value);
      }
    }
  }

  /** Sending the rings of served tracks sends one object for each, in order. */
  lemma {:induction false} FdsMeet(rings: seq<Ring>, leased: set<nat>, audio: seq<Track>)
    requires AudioServed(rings, leased, audio)
    ensures var fds := RingFds(RingsOf(rings, audio), leased);
            fds.Some? && TransferMeets(fds.value, WantRings(audio))
  {
    if audio != [] {
      assert Served(rings, leased, audio[0]);
      assert AudioServed(rings, leased, audio[1..]);
      FdsMeet(rings, leased, audio[1..]);
      assert RingsOf(rings, audio)[1..] == RingsOf(rings, audio[1..]);
    }
  }

  /** Both sides decide alike whether a doorbell crosses. */
  lemma BellAgrees(rings: seq<Ring>, leased: set<nat>, audio: seq<Track>)
    requires AudioServed(rings, leased, audio)
    requires forall i | 0 <= i < |audio| :: IsAudio(audio[i].kind)
    ensures AnyPlayback(RingsOf(rings, audio)) <==> AnyPlaybackTrack(audio)
  {
    var found := RingsOf(rings, audio);
    forall i | 0 <= i < |audio|
      ensures found[i].recording <==> !audio[i].kind.Playback?
    {
      assert Served(rings, leased, audio[i]);
    }
    if AnyPlayback(found) {
      var i :| 0 <= i < |found| && !found[i].recording;
      assert audio[i].kind.Playback?;
    }
    if AnyPlaybackTrack(audio) {
      var i :| 0 <= i < |audio| && audio[i].kind.Playback?;
      assert !found[i].recording;
    }
  }

  /** The doorbell and ring transfer meets what is expected of it. */
  lemma RingTransferMeets(rings: seq<Ring>, leased: set<nat>, audio: seq<Track>, bell: bool)
    requires AudioServed(rings, leased, audio)
    ensures RingFds(RingsOf(rings, audio), leased).Some?
    ensures var fds := RingFds(RingsOf(rings, audio), leased).value;
            && TransferMeets((if bell then [BellPage, BellWake] else []) + fds, RingWants(audio, bell))
            && (fds == [] <==> audio == [])
  {
    FdsMeet(rings, leased, audio);
    var fds := RingFds(RingsOf(rings, audio), leased).value;
    if bell {
      JoinMeets([BellPage, BellWake], fds, [ExpectPage, ExpectWake], WantRings(audio));
    } else {
      JoinMeets([], fds, [], WantRings(audio));
    }
  }

  lemma JoinMeets(a: seq<Object>, b: seq<Object>, x: seq<Expected>, y: seq<Expected>)
    requires TransferMeets(a, x) && TransferMeets(b, y)
    ensures TransferMeets(a + b, x + y)
  {
  }

  lemma ConcatMeet(a: seq<seq<Object>>, b: seq<seq<Object>>, x: seq<seq<Expected>>, y: seq<seq<Expected>>)
    requires AllMeet(a, x) && AllMeet(b, y)
    ensures AllMeet(a + b, x + y)
  {
  }

  lemma ChannelsMeet(purposes: seq<Purpose>)
    ensures AllMeet(Channels(purposes) + [[ChannelEnd(TracksEnd)]],
                    ChannelWants(purposes) + [[ExpectChannel(TracksEnd)]])
  {
    assert TransferMeets([ChannelEnd(TracksEnd)], [ExpectChannel(TracksEnd)]);
    forall i | 0 <= i < |purposes|
      ensures TransferMeets(Channels(purposes)[i], ChannelWants(purposes)[i])
    {
    }
    ConcatMeet(Channels(purposes), [[ChannelEnd(TracksEnd)]], ChannelWants(purposes), [[ExpectChannel(TracksEnd)]]);
  }

  /** For every valid offer that resolves, every selection and every answer the rules
      allow, what the host sends is one for one, in order, what the consumer expects. */
  lemma TransfersAgree(
    tracks: seq<Track>, rings: seq<Ring>, hasTarget: bool, leased: set<nat>,
    selection: seq<Selected>, admissions: seq<Admission>)
    requires ValidOffer(tracks, rings) && Resolves(tracks, rings) && Created(rings)
    requires Answers(tracks, rings, hasTarget, leased, selection, admissions)
    ensures Agree(tracks, rings, leased, admissions)
  {
    OfferedAudioHasRing(tracks, rings);
    var audio := AudioTracks(tracks, admissions);
    AllServed(tracks, rings, hasTarget, leased, selection, admissions);
    BellAgrees(rings, leased, audio);
    var bell := Bell(tracks, admissions);
    RingTransferMeets(rings, leased, audio, bell);
    var purposes := ChannelKinds(tracks, admissions);
    ChannelsMeet(purposes);
    if audio != [] || bell {
      var objects := (if bell then [BellPage, BellWake] else []) + RingFds(RingsOf(rings, audio), leased).value;
      ConcatMeet(Channels(purposes) + [[ChannelEnd(TracksEnd)]], [objects],
                 ChannelWants(purposes) + [[ExpectChannel(TracksEnd)]], [RingWants(audio, bell)]);
    }
  }

  /** And only then: an offered playback track whose first ring by identifier is a
      recording ring makes the two sides disagree as soon as it is selected. */
  lemma MisresolvedTrackDisagrees(
    tracks: seq<Track>, rings: seq<Ring>, hasTarget: bool, leased: set<nat>, k: nat)
    requires ValidOffer(tracks, rings) && k < |tracks| && tracks[k].kind.Playback?
    requires FindRing(rings, tracks[k].id).Some? && FindRing(rings, tracks[k].id).value.recording
    requires HaveRings(tracks, rings)
    ensures var selection, admissions := [Selected(tracks[k].id, false, false)], [Admission(tracks[k].id, None)];
            && ValidSelection(tracks, selection)
            && Answers(tracks, rings, hasTarget, leased, selection, admissions)
            && var sent := Sends(tracks, rings, leased, admissions);
               !(sent.Some? && AllMeet(sent.value, Wants(tracks, admissions)))
  {
    var t := tracks[k];
    var admissions := [Admission(t.id, None)];
    UniqueFind(tracks, t);
    AudioOfUnique(tracks, t);
    assert AudioTracks(tracks, admissions[1..]) == [];
    var audio := AudioTracks(tracks, admissions);
    assert audio == [t];
    NoVideoAt(tracks, t);
    assert VideoPosition(tracks, admissions).None?;
    assert audio[0].kind.Playback?;
    var found := RingsOf(rings, audio);
    assert found == [FindRing(rings, t.id).value] && !AnyPlayback(found);
    assert ChannelKinds(tracks, admissions[1..]) == [] && ChannelKinds(tracks, admissions) == [];
    var sent, wants := Sends(tracks, rings, leased, admissions), Wants(tracks, admissions);
    assert wants == [[ExpectChannel(TracksEnd)], RingWants(audio, true)];
    if sent.Some? {
      assert RingFds(found[1..], leased) == Some([]);
      assert |sent.value| == 2 && |sent.value[1]| == 1;
      assert !TransferMeets(sent.value[1], wants[1]);
    }
  }

  lemma {:induction false} AudioOfUnique(tracks: seq<Track>, t: Track)
    requires UniqueIds(tracks) && t in tracks && IsAudio(t.kind)
    ensures FindAudio(tracks, t.id) == Some(t)
  {
    var found := FindAudio(tracks, t.id);
    assert found.Some?;
    UniqueFind(tracks, t);
    UniqueFind(tracks, found.value);
  }

  lemma NoVideoAt(tracks: seq<Track>, t: Track)
    requires UniqueIds(tracks) && t in tracks && !t.kind.Video?
    ensures !HasVideo(tracks, t.id)
  {
    var k :| 0 <= k < |tracks| && tracks[k] == t;
  }

  /** The exact condition: the two sides agree on every selection if and only if every
      offered playback track's first ring by identifier is a playback ring. */
  lemma AgreementIffResolves(tracks: seq<Track>, rings: seq<Ring>, hasTarget: bool, leased: set<nat>)
    requires ValidOffer(tracks, rings) && Created(rings)
    ensures Resolves(tracks, rings) <==> AlwaysAgree(tracks, rings, hasTarget, leased)
  {
    OfferedAudioHasRing(tracks, rings);
    if Resolves(tracks, rings) {
      forall selection, admissions | Answers(tracks, rings, hasTarget, leased, selection, admissions)
        ensures Agree(tracks, rings, leased, admissions)
      {
        TransfersAgree(tracks, rings, hasTarget, leased, selection, admissions);
      }
    } else {
      var k :| 0 <= k < |tracks| && tracks[k].kind.Playback? && FindRing(rings, tracks[k].id).Some?
               && FindRing(rings, tracks[k].id).value.recording;
      MisresolvedTrackDisagrees(tracks, rings, hasTarget, leased, k);
      var selection, admissions := [Selected(tracks[k].id, false, false)], [Admission(tracks[k].id, None)];
      assert Answers(tracks, rings, hasTarget, leased, selection, admissions);
      assert !Agree(tracks, rings, leased, admissions);
    }
  }

  /** What the host sends meets what the consumer expects. */
  ghost predicate Agree(tracks: seq<Track>, rings: seq<Ring>, leased: set<nat>, admissions: seq<Admission>) {
    && HaveRings(tracks, rings)
    && var sent := Sends(tracks, rings, leased, admissions);
       sent.Some? && AllMeet(sent.value, Wants(tracks, admissions))
  }

  ghost predicate AlwaysAgree(tracks: seq<Track>, rings: seq<Ring>, hasTarget: bool, leased: set<nat>) {
    forall selection, admissions ::
      Answers(tracks, rings, hasTarget, leased, selection, admissions) ==> Agree(tracks, rings, leased, admissions)
  }

  predicate Distinct(purposes: seq<Purpose>) {
    forall i, j | 0 <= i < j < |purposes| :: purposes[i] != purposes[j]
  }

  /** No purpose has two channels, so neither side drops one it holds. */
  lemma {:induction false} ChannelsDistinct(tracks: seq<Track>, admissions: seq<Admission>)
    requires UniqueIds(tracks) && SingleKinds(tracks)
    requires forall i, j | 0 <= i < j < |admissions| :: admissions[i].id != admissions[j].id
    ensures Distinct(ChannelKinds(tracks, admissions))
  {
    if admissions != [] {
      var rest := admissions[1..];
      assert forall i | 0 <= i < |rest| :: rest[i] == admissions[i + 1];
      ChannelsDistinct(tracks, rest);
      var t := FindTrack(tracks, admissions[0].id);
      if admissions[0].refusal.None? && t.Some? && (t.value.kind.Input? || t.value.kind.Affordances?) {
        var p := if t.value.kind.Input? then InputEnd else AffordancesEnd;
        assert ChannelKinds(tracks, admissions) == [p] + ChannelKinds(tracks, rest);
        if p in ChannelKinds(tracks, rest) {
          var a, u := PurposeComesFrom(tracks, rest, p);
          SameKindSameTrack(tracks, t.value, u);
        }
      } else {
        assert ChannelKinds(tracks, admissions) == ChannelKinds(tracks, rest);
      }
    }
  }

  lemma SameKindSameTrack(tracks: seq<Track>, t: Track, u: Track)
    requires SingleKinds(tracks) && t in tracks && u in tracks && t.kind == u.kind && IsSingle(t.kind)
    ensures t == u
  {
    var i :| 0 <= i < |tracks| && tracks[i] == t;
    var j :| 0 <= j < |tracks| && tracks[j] == u;
    assert i == j;
  }

  lemma {:induction false} PurposeComesFrom(tracks: seq<Track>, admissions: seq<Admission>, p: Purpose)
    returns (a: Admission, t: Track)
    requires p in ChannelKinds(tracks, admissions)
    ensures a in admissions && a.refusal.None? && FindTrack(tracks, a.id) == Some(t)
    ensures match p
            case InputEnd => t.kind.Input?
            case AffordancesEnd => t.kind.Affordances?
            case TracksEnd => false
  {
    var first := FindTrack(tracks, admissions[0].id);
    if p in ChannelKinds(tracks, admissions[1..]) {
      a, t := PurposeComesFrom(tracks, admissions[1..], p);
    } else {
      a, t := admissions[0], first.value;
    }
  }

  // ---- What must be in the lists both sides derive ----

  /** The answer admits an input or affordances track, which carries a channel. */
  ghost predicate HasChannel(tracks: seq<Track>, a: Admission) {
    && a.refusal.None?
    && exists k | 0 <= k < |tracks| :: tracks[k].id == a.id && (tracks[k].kind.Input? || tracks[k].kind.Affordances?)
  }

  ghost function CountChannels(tracks: seq<Track>, admissions: seq<Admission>): nat {
    if admissions == [] then 0
    else (if HasChannel(tracks, admissions[0]) then 1 else 0) + CountChannels(tracks, admissions[1..])
  }

  lemma ChannelHead(tracks: seq<Track>, a: Admission)
    requires UniqueIds(tracks)
    ensures HasChannel(tracks, a) <==>
            && a.refusal.None? && FindTrack(tracks, a.id).Some?
            && var kind := FindTrack(tracks, a.id).value.kind; kind.Input? || kind.Affordances?
  {
    if HasChannel(tracks, a) {
      var k :| 0 <= k < |tracks| && tracks[k].id == a.id && (tracks[k].kind.Input? || tracks[k].kind.Affordances?);
      UniqueFind(tracks, tracks[k]);
    }
  }

  /** The channel list has one place for each answer that admits an input or affordances
      track, in the order of the answers, and nothing else. */
  lemma {:induction false} ChannelPlace(tracks: seq<Track>, admissions: seq<Admission>, i: nat, k: nat)
    requires UniqueIds(tracks) && i < |admissions| && k < |tracks|
    requires admissions[i].refusal.None? && tracks[k].id == admissions[i].id
    requires tracks[k].kind.Input? || tracks[k].kind.Affordances?
    ensures |ChannelKinds(tracks, admissions)| == CountChannels(tracks, admissions)
    ensures var place := CountChannels(tracks, admissions[..i]);
            && place < |ChannelKinds(tracks, admissions)|
            && ChannelKinds(tracks, admissions)[place] ==
               if tracks[k].kind.Input? then InputEnd else AffordancesEnd
  {
    ChannelHead(tracks, admissions[0]);
    ChannelCount(tracks, admissions[1..]);
    UniqueFind(tracks, tracks[k]);
    if i > 0 {
      ChannelPlace(tracks, admissions[1..], i - 1, k);
      assert admissions[..i][0] == admissions[0] && admissions[..i][1..] == admissions[1..][..i - 1];
    } else {
      assert admissions[..0] == [];
    }
  }

  lemma {:induction false} ChannelCount(tracks: seq<Track>, admissions: seq<Admission>)
    requires UniqueIds(tracks)
    ensures |ChannelKinds(tracks, admissions)| == CountChannels(tracks, admissions)
  {
    if admissions != [] {
      ChannelHead(tracks, admissions[0]);
      ChannelCount(tracks, admissions[1..]);
    }
  }

  /** The answer admits an audio track. */
  ghost predicate CarriesAudio(tracks: seq<Track>, a: Admission) {
    && a.refusal.None?
    && exists k | 0 <= k < |tracks| :: tracks[k].id == a.id && (tracks[k].kind.Playback? || tracks[k].kind.Recording?)
  }

  ghost function CountAudio(tracks: seq<Track>, admissions: seq<Admission>): nat {
    if admissions == [] then 0
    else (if CarriesAudio(tracks, admissions[0]) then 1 else 0) + CountAudio(tracks, admissions[1..])
  }

  lemma AudioHead(tracks: seq<Track>, a: Admission)
    ensures CarriesAudio(tracks, a) <==> a.refusal.None? && FindAudio(tracks, a.id).Some?
  {
    if a.refusal.None? && FindAudio(tracks, a.id).Some? {
      var t := FindAudio(tracks, a.id).value;
      var k :| 0 <= k < |tracks| && tracks[k] == t;
    }
  }

  lemma {:induction false} AudioTotal(tracks: seq<Track>, admissions: seq<Admission>)
    ensures |AudioTracks(tracks, admissions)| == CountAudio(tracks, admissions)
  {
    if admissions != [] {
      AudioHead(tracks, admissions[0]);
      AudioTotal(tracks, admissions[1..]);
    }
  }

  /** So has the list of audio tracks, and the place holds that very track. */
  lemma {:induction false} AudioPlace(tracks: seq<Track>, admissions: seq<Admission>, i: nat, k: nat)
    requires UniqueIds(tracks) && i < |admissions| && k < |tracks|
    requires admissions[i].refusal.None? && tracks[k].id == admissions[i].id
    requires tracks[k].kind.Playback? || tracks[k].kind.Recording?
    ensures |AudioTracks(tracks, admissions)| == CountAudio(tracks, admissions)
    ensures var place := CountAudio(tracks, admissions[..i]);
            place < |AudioTracks(tracks, admissions)| && AudioTracks(tracks, admissions)[place] == tracks[k]
  {
    AudioHead(tracks, admissions[0]);
    AudioTotal(tracks, admissions);
    AudioOfUnique(tracks, tracks[k]);
    if i > 0 {
      AudioPlace(tracks, admissions[1..], i - 1, k);
      assert admissions[..i][0] == admissions[0] && admissions[..i][1..] == admissions[1..][..i - 1];
    } else {
      assert admissions[..0] == [];
    }
  }

  lemma {:induction false} AudioComesFrom(tracks: seq<Track>, admissions: seq<Admission>, t: Track) returns (i: nat)
    requires t in AudioTracks(tracks, admissions)
    ensures i < |admissions| && admissions[i].refusal.None? && t.id == admissions[i].id && t in tracks
  {
    if t in AudioTracks(tracks, admissions[1..]) {
      var j := AudioComesFrom(tracks, admissions[1..], t);
      i := j + 1;
    } else {
      i := 0;
    }
  }

  /** Some track of this kind is offered under an admitted identifier. */
  ghost predicate Admits(tracks: seq<Track>, admissions: seq<Admission>, kind: Kind) {
    exists i, k | 0 <= i < |admissions| && 0 <= k < |tracks| ::
      admissions[i].refusal.None? && tracks[k].id == admissions[i].id && tracks[k].kind == kind
  }

  /** The channel list has an end for a purpose exactly when such a track was admitted. */
  lemma ChannelsAreAdmitted(tracks: seq<Track>, admissions: seq<Admission>)
    requires UniqueIds(tracks)
    ensures InputEnd in ChannelKinds(tracks, admissions) <==> Admits(tracks, admissions, Input)
    ensures AffordancesEnd in ChannelKinds(tracks, admissions) <==> Admits(tracks, admissions, Affordances)
  {
    ChannelIsAdmitted(tracks, admissions, InputEnd, Input);
    ChannelIsAdmitted(tracks, admissions, AffordancesEnd, Affordances);
  }

  lemma ChannelIsAdmitted(tracks: seq<Track>, admissions: seq<Admission>, p: Purpose, kind: Kind)
    requires UniqueIds(tracks) && (p, kind) in {(InputEnd, Input), (AffordancesEnd, Affordances)}
    ensures p in ChannelKinds(tracks, admissions) <==> Admits(tracks, admissions, kind)
  {
    if p in ChannelKinds(tracks, admissions) {
      var a, t := PurposeComesFrom(tracks, admissions, p);
      var i :| 0 <= i < |admissions| && admissions[i] == a;
      var k :| 0 <= k < |tracks| && tracks[k] == t;
      assert admissions[i].refusal.None? && tracks[k].id == admissions[i].id && tracks[k].kind == kind;
    }
    if Admits(tracks, admissions, kind) {
      var i, k :| 0 <= i < |admissions| && 0 <= k < |tracks| && admissions[i].refusal.None?
                  && tracks[k].id == admissions[i].id && tracks[k].kind == kind;
      ChannelPlace(tracks, admissions, i, k);
    }
  }

  /** A doorbell is expected exactly when video or playback was admitted. */
  lemma BellIsAdmitted(tracks: seq<Track>, admissions: seq<Admission>)
    requires UniqueIds(tracks)
    ensures Bell(tracks, admissions) <==> Admits(tracks, admissions, Video) || Admits(tracks, admissions, Playback)
  {
    var audio := AudioTracks(tracks, admissions);
    if Bell(tracks, admissions) {
      if VideoPosition(tracks, admissions).Some? {
        var i := VideoPosition(tracks, admissions).value;
        assert VideoAt(tracks, admissions, i);
        var k :| 0 <= k < |tracks| && tracks[k].id == admissions[i].id && tracks[k].kind.Video?;
        assert admissions[i].refusal.None? && tracks[k].id == admissions[i].id && tracks[k].kind == Video;
      } else {
        var n :| 0 <= n < |audio| && audio[n].kind.Playback?;
        var i := AudioComesFrom(tracks, admissions, audio[n]);
        var k :| 0 <= k < |tracks| && tracks[k] == audio[n];
        assert admissions[i].refusal.None? && tracks[k].id == admissions[i].id && tracks[k].kind == Playback;
      }
    }
    if Admits(tracks, admissions, Video) {
      var i, k :| 0 <= i < |admissions| && 0 <= k < |tracks| && admissions[i].refusal.None?
                  && tracks[k].id == admissions[i].id && tracks[k].kind == Video;
      assert VideoAt(tracks, admissions, i);
    }
    if Admits(tracks, admissions, Playback) {
      var i, k :| 0 <= i < |admissions| && 0 <= k < |tracks| && admissions[i].refusal.None?
                  && tracks[k].id == admissions[i].id && tracks[k].kind == Playback;
      AudioPlace(tracks, admissions, i, k);
    }
  }

  /** The answers by the rules the protocol documents, track by track. */
  lemma AnswersByTheRules(tracks: seq<Track>, rings: seq<Ring>, hasTarget: bool, leased: set<nat>,
                          s: Selected, r: Option<Refusal>, k: nat)
    requires UniqueIds(tracks) && Answer(tracks, rings, hasTarget, leased, s, r)
    ensures (forall i | 0 <= i < |tracks| :: tracks[i].id != s.id) <==> r == Some(Unknown)
    ensures k < |tracks| && tracks[k].id == s.id ==>
              && (r == Some(NotWritable) <==> s.write && tracks[k].direction == FromSource)
              && (tracks[k].kind.Input? && r == None ==> s.write && hasTarget)
              && (tracks[k].kind.Recording? && r == None ==> s.write)
              && (r == Some(Unavailable) ==>
                    tracks[k].kind.Recording? || (tracks[k].kind.Input? && (!s.write || !hasTarget)))
  {
    if k < |tracks| && tracks[k].id == s.id {
      UniqueFind(tracks, tracks[k]);
    }
  }
}
