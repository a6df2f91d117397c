/** The two sides of the handshake as they run, and a whole run
    (crates/jackstay/src/handshake.rs, `accept`, `claim`, `send_rings`, `Offered::select`,
    `receive_rings`). */
module HandshakeRun {
  import opened Options
  import opened AudioFormat
  import opened TrackOffer
  import opened Handshake

  datatype HostResult =
    | InvalidOffer
    | InvalidSelection
    | Refused(admissions: seq<Admission>, refusal: Admission)
    | SendFailed(admissions: seq<Admission>)
    | Accepted(admissions: seq<Admission>, transfers: seq<seq<Object>>)

  datatype MappedRing = MappedRing(track: Track, geometry: Geometry)

  datatype ConsumerResult =
    | BadSelection
    | NotAnAnswer
    | SetupRefused(refusal: Admission)
    | BadTransfer
    | Connected(input: Option<Object>, affordances: Option<Object>, channel: Object, doorbell: bool,
                playback: seq<MappedRing>, recording: seq<MappedRing>)

  // ---- The host ----

  /** The host's recording rings: the identities of those that have a writer. */
  class Host {
    var leased: set<nat>

    /** Become the writer of a track's ring, if it is a recording ring without one. */
    method Claim(rings: seq<Ring>, id: nat, write: bool) returns (lease: Option<nat>)
      modifies this
      ensures lease.Some? <==>
              && write && FindRing(rings, id).Some? && FindRing(rings, id).value.recording
              && FindRing(rings, id).value.identity !in old(leased)
      ensures lease.Some? ==> lease.value == FindRing(rings, id).value.identity
      ensures leased == if lease.Some? then old(leased) + {lease.value} else old(leased)
    {
      var ring := FindRing(rings, id);
      if !write || ring.None? || !ring.value.recording || ring.value.identity in leased {
        return None;
      }
      leased := leased + {ring.value.identity};
      return Some(ring.value.identity);
    }

    /** Answer one selected track. */
    method AnswerOne(tracks: seq<Track>, rings: seq<Ring>, hasTarget: bool, s: Selected)
      returns (refusal: Option<Refusal>, lease: Option<nat>)
      modifies this
      ensures Answer(tracks, rings, hasTarget, leased, s, refusal)
      ensures lease.Some? ==> lease.value !in old(leased) && LeaseOf(tracks, rings, s, refusal, lease.value)
      ensures leased == if lease.Some? then old(leased) + {lease.value} else old(leased)
      ensures TakenOnly(tracks, rings, leased, s, refusal)
    {
      match FindTrack(tracks, s.id) {
        case None => return Some(Unknown), None;
        case Some(t) =>
          if s.write && t.direction == FromSource {
            return Some(NotWritable), None;
          }
          if t.kind.Input? && (!s.write || !hasTarget) {
            return Some(Unavailable), None;
          }
          if t.kind.Recording? {
            lease := Claim(rings, t.id, s.write);
            return if lease.Some? then None else Some(Unavailable), lease;
          }
          return None, None;
      }
    }

    /** Answer every selected track in order, collecting leases. */
    method AnswerAll(tracks: seq<Track>, rings: seq<Ring>, hasTarget: bool, selection: seq<Selected>)
      returns (admissions: seq<Admission>, leases: set<nat>)
      modifies this
      ensures Answers(tracks, rings, hasTarget, leased, selection, admissions)
      ensures leases !! old(leased) && leased == old(leased) + leases
      ensures forall i | 0 <= i < |selection| ::
                TakenOnly(tracks, rings, leased, selection[i], admissions[i].refusal)
      ensures forall l | l in leases :: Justified(tracks, rings, selection, admissions, l)
    {
      admissions, leases := [], {};
      for k := 0 to |selection|
        invariant |admissions| == k
        invariant leases !! old(leased) && leased == old(leased) + leases
        invariant forall i | 0 <= i < k ::
            && admissions[i].id == selection[i].id
            && Answer(tracks, rings, hasTarget, leased, selection[i], admissions[i].refusal)
            && TakenOnly(tracks, rings, leased, selection[i], admissions[i].refusal)
        invariant forall l | l in leases :: Justified(tracks, rings, selection[..k], admissions, l)
      {
        ghost var before, earlier := leased, admissions;
        var refusal, lease := AnswerOne(tracks, rings, hasTarget, selection[k]);
        forall i | 0 <= i < k
          ensures Answer(tracks, rings, hasTarget, leased, selection[i], admissions[i].refusal)
          ensures TakenOnly(tracks, rings, leased, selection[i], admissions[i].refusal)
        {
          assert before <= leased;
          AnswerStays(tracks, rings, hasTarget, before, leased, selection[i], admissions[i].refusal);
        }
        admissions := admissions + [Admission(selection[k].id, refusal)];
        forall l | l in leases
          ensures Justified(tracks, rings, selection[..k + 1], admissions, l)
        {
          StillJustified(tracks, rings, selection[..k], earlier, selection[k], admissions[k], l);
          assert selection[..k] + [selection[k]] == selection[..k + 1];
        }
        if lease.Some? {
          leases := leases + {lease.value};
          assert LeaseOf(tracks, rings, selection[..k + 1][k], admissions[k].refusal, lease.value);
        }
      }
      assert selection[..|selection|] == selection;
    }

    /** The host's side. Whatever goes wrong, the leases it took are dropped again. */
    method Accept(tracks: seq<Track>, rings: seq<Ring>, hasTarget: bool, selection: seq<Selected>)
      returns (r: HostResult, ghost during: set<nat>)
      modifies this
      ensures r.InvalidOffer? <==> !ValidOffer(tracks, rings)
      ensures r.InvalidSelection? <==> ValidOffer(tracks, rings) && !ValidSelection(tracks, selection)
      ensures r.Refused? || r.SendFailed? || r.Accepted? ==>
                Answers(tracks, rings, hasTarget, during, selection, r.admissions)
      ensures r.Refused? ==> FirstRefusal(selection, r.admissions) == Some(r.refusal)
      ensures r.SendFailed? || r.Accepted? ==>
                && FirstRefusal(selection, r.admissions).None? && HaveRings(tracks, rings)
                && var sent := Sends(tracks, rings, during, r.admissions);
                   if r.Accepted? then sent == Some(r.transfers) else sent == None
      ensures if r.Accepted? then old(leased) <= leased && leased == during else leased == old(leased)
      ensures r.Accepted? ==>
                forall l | l in leased - old(leased) :: Justified(tracks, rings, selection, r.admissions, l)
    {
      during := leased;
      var ok := CheckOffer(tracks, rings);
      if !ok {
        return InvalidOffer, during;
      }
      OfferedAudioHasRing(tracks, rings);
      ok := CheckSelection(tracks, selection);
      if !ok {
        return InvalidSelection, during;
      }
      var admissions, leases := AnswerAll(tracks, rings, hasTarget, selection);
      during := leased;
      var refused := FirstRefusal(selection, admissions);
      if refused.Some? {
        leased := leased - leases;
        return Refused(admissions, refused.value), during;
      }
      var objects := SendRings(RingsOf(rings, AudioTracks(tracks, admissions)), leased,
                               VideoPosition(tracks, admissions).Some?);
      if objects.None? {
        leased := leased - leases;
        return SendFailed(admissions), during;
      }
      var transfers := SendChannels(ChannelKinds(tracks, admissions));
      transfers := transfers + if objects.value == [] then [] else [objects.value];
      return Accepted(admissions, transfers), during;
    }
  }

  /** A writable recording track is turned away only while its ring has a writer. */
  predicate TakenOnly(tracks: seq<Track>, rings: seq<Ring>, leased: set<nat>, s: Selected, r: Option<Refusal>) {
    var t := FindTrack(tracks, s.id);
    t.Some? && t.value.kind.Recording? && s.write && r == Some(Unavailable)
    && FindRing(rings, s.id).Some? && FindRing(rings, s.id).value.recording ==>
      FindRing(rings, s.id).value.identity in leased
  }

  /** The lease is that of an admitted recording track. */
  predicate LeaseOf(tracks: seq<Track>, rings: seq<Ring>, s: Selected, r: Option<Refusal>, l: nat) {
    && r == None && FindTrack(tracks, s.id).Some? && FindTrack(tracks, s.id).value.kind.Recording?
    && FindRing(rings, s.id).Some? && FindRing(rings, s.id).value.identity == l
  }

  ghost predicate Justified(
    tracks: seq<Track>, rings: seq<Ring>, selection: seq<Selected>, admissions: seq<Admission>, l: nat)
  {
    && |selection| == |admissions|
    && exists i | 0 <= i < |selection| :: LeaseOf(tracks, rings, selection[i], admissions[i].refusal, l)
  }

  lemma StillJustified(tracks: seq<Track>, rings: seq<Ring>, selection: seq<Selected>, admissions: seq<Admission>,
                       s: Selected, a: Admission, l: nat)
    requires Justified(tracks, rings, selection, admissions, l)
    ensures Justified(tracks, rings, selection + [s], admissions + [a], l)
  {
    var i :| 0 <= i < |selection| && LeaseOf(tracks, rings, selection[i], admissions[i].refusal, l);
    assert LeaseOf(tracks, rings, (selection + [s])[i], (admissions + [a])[i].refusal, l);
  }

  /** More leases never change an answer given. */
  lemma AnswerStays(tracks: seq<Track>, rings: seq<Ring>, hasTarget: bool, before: set<nat>, after: set<nat>,
                    s: Selected, r: Option<Refusal>)
    requires before <= after && Answer(tracks, rings, hasTarget, before, s, r) && TakenOnly(tracks, rings, before, s, r)
    ensures Answer(tracks, rings, hasTarget, after, s, r) && TakenOnly(tracks, rings, after, s, r)
  {
  }

  /** One transfer for each channel, the tracks channel last. */
  method SendChannels(purposes: seq<Purpose>) returns (transfers: seq<seq<Object>>)
    ensures transfers == Channels(purposes) + [[ChannelEnd(TracksEnd)]]
  {
    transfers := [];
    for k := 0 to |purposes|
      invariant transfers == Channels(purposes)[..k]
    {
      transfers := transfers + [[ChannelEnd(purposes[k])]];
    }
    transfers := transfers + [[ChannelEnd(TracksEnd)]];
  }

  ghost function FdsSoFar(rest: seq<Ring>, leased: set<nat>, done: seq<Object>): Option<seq<Object>> {
    var fds := RingFds(rest, leased);
    if fds.None? then None else Some(done + fds.value)
  }

  lemma FdsStep(rest: seq<Ring>, leased: set<nat>, done: seq<Object>)
    requires rest != []
    ensures var fd := RingFd(rest[0], leased);
            FdsSoFar(rest, leased, done) ==
            if fd.None? then None else FdsSoFar(rest[1..], leased, done + [fd.value])
  {
    var fd, fds := RingFd(rest[0], leased), RingFds(rest[1..], leased);
    if fd.Some? && fds.Some? {
      assert done + ([fd.value] + fds.value) == (done + [fd.value]) + fds.value;
    }
  }

  /** The doorbell's two objects when video or a playback ring is among what is passed,
      then each ring. */
  method SendRings(rings: seq<Ring>, leased: set<nat>, video: bool) returns (objects: Option<seq<Object>>)
    ensures var fds := RingFds(rings, leased);
            objects == if fds.None? then None
                       else Some((if video || AnyPlayback(rings) then [BellPage, BellWake] else []) + fds.value)
  {
    var bell := video;
    for k := 0 to |rings|
      invariant bell <==> video || exists i | 0 <= i < k :: !rings[i].recording
    {
      bell := bell || !rings[k].recording;
    }
    var out := if bell then [BellPage, BellWake] else [];
    ghost var front, tail: seq<Object> := out, [];
    assert rings[0..] == rings;
    assert RingFds(rings, leased).Some? ==> [] + RingFds(rings, leased).value == RingFds(rings, leased).value;
    for k := 0 to |rings|
      invariant out == front + tail
      invariant FdsSoFar(rings[k..], leased, tail) == RingFds(rings, leased)
    {
      var fd := RingFd(rings[k], leased);
      FdsStep(rings[k..], leased, tail);
      assert rings[k..][1..] == rings[k + 1..];
      if fd.None? {
        return None;
      }
      out := out + [fd.value];
      tail := tail + [fd.value];
    }
    assert rings[|rings|..] == [] && tail + [] == tail;
    return Some(out);
  }

  // ---- The consumer ----

  ghost predicate GoodMaps(maps: seq<MappedRing>) {
    forall i | 0 <= i < |maps| ::
      && maps[i].track.descriptor.Some?
      && Fits(maps[i].geometry, maps[i].track.descriptor.value)
  }

  ghost function TracksOf(maps: seq<MappedRing>): (tracks: seq<Track>)
    ensures |tracks| == |maps| && forall i | 0 <= i < |maps| :: tracks[i] == maps[i].track
  {
    seq(|maps|, i requires 0 <= i < |maps| => maps[i].track)
  }

  /** The playback or the recording tracks of a list, in order. */
  ghost function Only(audio: seq<Track>, recording: bool): seq<Track> {
    if audio == [] then []
    else
      var before, last := Only(audio[..|audio| - 1], recording), audio[|audio| - 1];
      if last.kind.Recording? == recording then before + [last] else before
  }

  /** Map the ring objects that follow the doorbell. */
  method MapRings(audio: seq<Track>, objects: seq<Object>)
    returns (maps: Option<(seq<MappedRing>, seq<MappedRing>)>)
    requires |objects| == |audio|
    ensures maps.Some? <==> forall i | 0 <= i < |audio| :: Mapped(audio[i], objects[i])
    ensures maps.Some? ==>
              && GoodMaps(maps.value.0) && GoodMaps(maps.value.1)
              && TracksOf(maps.value.0) == Only(audio, false) && TracksOf(maps.value.1) == Only(audio, true)
  {
    var playback: seq<MappedRing>, recording: seq<MappedRing> := [], [];
    for k := 0 to |audio|
      invariant forall i | 0 <= i < k :: Mapped(audio[i], objects[i])
      invariant GoodMaps(playback) && GoodMaps(recording)
      invariant TracksOf(playback) == Only(audio[..k], false) && TracksOf(recording) == Only(audio[..k], true)
    {
      assert audio[..k + 1][..k] == audio[..k];
      if !Mapped(audio[k], objects[k]) {
        return None;
      }
      var one := MappedRing(audio[k], objects[k].geometry);
      if audio[k].kind.Recording? {
        recording := recording + [one];
      } else {
        playback := playback + [one];
      }
    }
    assert audio[..|audio|] == audio;
    return Some((playback, recording));
  }

  ghost predicate AnswersIds(selection: seq<Selected>, admissions: seq<Admission>) {
    |admissions| == |selection| && forall i | 0 <= i < |selection| :: admissions[i].id == selection[i].id
  }

  method CheckAnswers(selection: seq<Selected>, admissions: seq<Admission>) returns (ok: bool)
    ensures ok <==> AnswersIds(selection, admissions)
  {
    if |admissions| != |selection| {
      return false;
    }
    for k := 0 to |selection|
      invariant forall i | 0 <= i < k :: admissions[i].id == selection[i].id
    {
      if admissions[k].id != selection[k].id {
        return false;
      }
    }
    return true;
  }

  /** The next transfer, if it is one channel end. */
  function OneChannel(transfers: seq<seq<Object>>, k: nat): Option<Object> {
    if k < |transfers| && |transfers[k]| == 1 && transfers[k][0].ChannelEnd? then Some(transfers[k][0]) else None
  }

  ghost function Held(purposes: seq<Purpose>, p: Purpose): Option<Object> {
    if p in purposes then Some(ChannelEnd(p)) else None
  }

  /** Receive one channel for each purpose, in order. */
  method ReceiveChannels(purposes: seq<Purpose>, transfers: seq<seq<Object>>)
    returns (ok: bool, input: Option<Object>, affordances: Option<Object>)
    requires TracksEnd !in purposes
    ensures ok <==> forall i | 0 <= i < |purposes| :: OneChannel(transfers, i).Some?
    ensures |purposes| <= |transfers| && transfers[..|purposes|] == Channels(purposes) ==>
              ok && input == Held(purposes, InputEnd) && affordances == Held(purposes, AffordancesEnd)
  {
    input, affordances := None, None;
    for k := 0 to |purposes|
      invariant forall i | 0 <= i < k :: OneChannel(transfers, i).Some?
      invariant |purposes| <= |transfers| && transfers[..|purposes|] == Channels(purposes) ==>
          input == Held(purposes[..k], InputEnd) && affordances == Held(purposes[..k], AffordancesEnd)
    {
      var channel := OneChannel(transfers, k);
      assert |purposes| <= |transfers| ==> transfers[..|purposes|][k] == transfers[k];
      if channel.None? {
        return false, None, None;
      }
      assert purposes[..k + 1] == purposes[..k] + [purposes[k]];
      if purposes[k].InputEnd? {
        input := channel;
      } else {
        affordances := channel;
      }
    }
    assert purposes[..|purposes|] == purposes;
    return true, input, affordances;
  }

  /** Receive the doorbell and rings expected for the admitted audio tracks; nothing is
      read when none is. */
  method ReceiveRings(audio: seq<Track>, video: bool, transfers: seq<seq<Object>>, k: nat)
    returns (maps: Option<(seq<MappedRing>, seq<MappedRing>)>, bell: bool)
    ensures bell <==> video || AnyPlaybackTrack(audio)
    ensures maps.Some? ==>
              && GoodMaps(maps.value.0) && GoodMaps(maps.value.1)
              && TracksOf(maps.value.0) == Only(audio, false) && TracksOf(maps.value.1) == Only(audio, true)
    ensures (audio == [] && !bell) || (k < |transfers| && TransferMeets(transfers[k], RingWants(audio, bell))) ==>
              maps.Some?
  {
    bell := video;
    for i := 0 to |audio|
      invariant bell <==> video || exists j | 0 <= j < i :: audio[j].kind.Playback?
    {
      bell := bell || audio[i].kind.Playback?;
    }
    if audio == [] && !bell {
      return Some(([], [])), bell;
    }
    var front := if bell then 2 else 0;
    if k >= |transfers| || |transfers[k]| != |audio| + front {
      return None, bell;
    }
    if bell && (transfers[k][0] != BellPage || transfers[k][1] != BellWake) {
      return None, bell;
    }
    var objects := transfers[k][front..];
    if TransferMeets(transfers[k], RingWants(audio, bell)) {
      RingsAfterBell(transfers[k], audio, bell);
    }
    maps := MapRings(audio, objects);
  }

  lemma RingsAfterBell(objects: seq<Object>, audio: seq<Track>, bell: bool)
    requires TransferMeets(objects, RingWants(audio, bell))
    ensures var front := if bell then 2 else 0;
            && |objects| == |audio| + front
            && (forall i | 0 <= i < |audio| :: Mapped(audio[i], objects[front..][i]))
            && (bell ==> objects[0] == BellPage && objects[1] == BellWake)
  {
    var front, wanted := if bell then 2 else 0, RingWants(audio, bell);
    if bell {
      assert Meets(objects[0], wanted[0]) && Meets(objects[1], wanted[1]);
    }
    forall i | 0 <= i < |audio|
      ensures Mapped(audio[i], objects[front..][i])
    {
      assert Meets(objects[front + i], wanted[front + i]) && wanted[front + i] == WantRings(audio)[i];
    }
  }

  lemma {:induction false} NoTracksPurpose(tracks: seq<Track>, admissions: seq<Admission>)
    ensures TracksEnd !in ChannelKinds(tracks, admissions)
  {
    if admissions != [] {
      NoTracksPurpose(tracks, admissions[1..]);
    }
  }

  /** The consumer's side. If the transfers are those it expects it connects, each channel
      in its own place and each admitted audio track with a ring of its own; and whatever
      it is sent, it never holds a ring that disagrees with the offered descriptor. */
  method Select(tracks: seq<Track>, selection: seq<Selected>, admissions: seq<Admission>, transfers: seq<seq<Object>>)
    returns (r: ConsumerResult)
    ensures r.BadSelection? <==> !ValidSelection(tracks, selection)
    ensures r.NotAnAnswer? <==> ValidSelection(tracks, selection) && !AnswersIds(selection, admissions)
    ensures ValidSelection(tracks, selection) && AnswersIds(selection, admissions) ==>
              var refused := FirstRefusal(selection, admissions);
              && (refused.Some? ==> r == SetupRefused(refused.value))
              && (refused.None? && AllMeet(transfers, Wants(tracks, admissions)) ==>
                    && r.Connected?
                    && var purposes := ChannelKinds(tracks, admissions);
                       && r.input == Held(purposes, InputEnd) && r.affordances == Held(purposes, AffordancesEnd)
                       && r.channel == ChannelEnd(TracksEnd))
              && (refused.None? ==> r.Connected? || r.BadTransfer?)
    ensures r.Connected? ==>
              var audio := AudioTracks(tracks, admissions);
              && r.doorbell == Bell(tracks, admissions) && GoodMaps(r.playback) && GoodMaps(r.recording)
              && TracksOf(r.playback) == Only(audio, false) && TracksOf(r.recording) == Only(audio, true)
  {
    var ok := CheckSelection(tracks, selection);
    if !ok {
      return BadSelection;
    }
    ok := CheckAnswers(selection, admissions);
    if !ok {
      return NotAnAnswer;
    }
    var refused := FirstRefusal(selection, admissions);
    if refused.Some? {
      return SetupRefused(refused.value);
    }
    var purposes, audio := ChannelKinds(tracks, admissions), AudioTracks(tracks, admissions);
    NoTracksPurpose(tracks, admissions);
    if AllMeet(transfers, Wants(tracks, admissions)) {
      MetTransfers(tracks, admissions, transfers);
    }
    var received, input, affordances := ReceiveChannels(purposes, transfers);
    var channel := OneChannel(transfers, |purposes|);
    if !received || channel.None? {
      return BadTransfer;
    }
    var maps, bell := ReceiveRings(audio, VideoPosition(tracks, admissions).Some?, transfers, |purposes| + 1);
    if maps.None? {
      return BadTransfer;
    }
    return Connected(input, affordances, channel.value, bell, maps.value.0, maps.value.1);
  }

  /** Expected transfers, by place. */
  lemma MetTransfers(tracks: seq<Track>, admissions: seq<Admission>, transfers: seq<seq<Object>>)
    requires AllMeet(transfers, Wants(tracks, admissions))
    ensures var purposes, audio := ChannelKinds(tracks, admissions), AudioTracks(tracks, admissions);
            var n, bell := |purposes|, Bell(tracks, admissions);
            && n < |transfers| && transfers[..n] == Channels(purposes)
            && OneChannel(transfers, n) == Some(ChannelEnd(TracksEnd))
            && (audio != [] || bell ==> n + 1 < |transfers| && TransferMeets(transfers[n + 1], RingWants(audio, bell)))
  {
    var purposes, wants := ChannelKinds(tracks, admissions), Wants(tracks, admissions);
    var n := |purposes|;
    forall i | 0 <= i < n
      ensures transfers[i] == [ChannelEnd(purposes[i])]
    {
      assert TransferMeets(transfers[i], wants[i]) && wants[i] == [ExpectChannel(purposes[i])];
      assert Meets(transfers[i][0], wants[i][0]);
    }
    assert TransferMeets(transfers[n], wants[n]) && wants[n] == [ExpectChannel(TracksEnd)];
    assert Meets(transfers[n][0], wants[n][0]);
    if AudioTracks(tracks, admissions) != [] || Bell(tracks, admissions) {
      assert TransferMeets(transfers[n + 1], wants[n + 1]);
    }
  }

  ghost function CountOf(audio: seq<Track>, recording: bool): nat {
    if audio == [] then 0
    else CountOf(audio[..|audio| - 1], recording) + if audio[|audio| - 1].kind.Recording? == recording then 1 else 0
  }

  /** Splitting by direction keeps every track, in order. */
  lemma {:induction false} OnlyPlace(audio: seq<Track>, recording: bool, i: nat)
    requires i < |audio| && audio[i].kind.Recording? == recording
    ensures |Only(audio, recording)| == CountOf(audio, recording)
    ensures CountOf(audio[..i], recording) < |Only(audio, recording)|
    ensures Only(audio, recording)[CountOf(audio[..i], recording)] == audio[i]
  {
    var last := |audio| - 1;
    OnlyCount(audio, recording);
    OnlyCount(audio[..last], recording);
    if i < last {
      OnlyPlace(audio[..last], recording, i);
      assert audio[..last][..i] == audio[..i];
    }
  }

  lemma {:induction false} OnlyCount(audio: seq<Track>, recording: bool)
    ensures |Only(audio, recording)| == CountOf(audio, recording)
    ensures forall t | t in Only(audio, recording) :: t in audio && t.kind.Recording? == recording
  {
    if audio != [] {
      OnlyCount(audio[..|audio| - 1], recording);
    }
  }

  /** The rings mapped are those of exactly the admitted tracks of this kind. */
  ghost predicate HasRingsOf(tracks: seq<Track>, admissions: seq<Admission>, maps: seq<MappedRing>, kind: Kind) {
    && (forall n | 0 <= n < |maps| :: IsAdmitted(tracks, admissions, maps[n].track) && maps[n].track.kind == kind)
    && (forall t | IsAdmitted(tracks, admissions, t) && t.kind == kind :: t in TracksOf(maps))
  }

  ghost predicate IsAdmitted(tracks: seq<Track>, admissions: seq<Admission>, t: Track) {
    t in tracks && exists i | 0 <= i < |admissions| :: admissions[i].refusal.None? && admissions[i].id == t.id
  }

  lemma OnlyAdmitted(tracks: seq<Track>, admissions: seq<Admission>, maps: seq<MappedRing>, kind: Kind)
    requires UniqueIds(tracks) && kind in {Playback, Recording}
    requires TracksOf(maps) == Only(AudioTracks(tracks, admissions), kind.Recording?)
    ensures HasRingsOf(tracks, admissions, maps, kind)
  {
    var audio, recording := AudioTracks(tracks, admissions), kind.Recording?;
    OnlyCount(audio, recording);
    forall n | 0 <= n < |maps|
      ensures IsAdmitted(tracks, admissions, maps[n].track) && maps[n].track.kind == kind
    {
      var t := maps[n].track;
      assert t == TracksOf(maps)[n] && t in audio;
      var i := AudioComesFrom(tracks, admissions, t);
    }
    forall t | IsAdmitted(tracks, admissions, t) && t.kind == kind
      ensures t in TracksOf(maps)
    {
      var k :| 0 <= k < |tracks| && tracks[k] == t;
      var i :| 0 <= i < |admissions| && admissions[i].refusal.None? && admissions[i].id == t.id;
      AudioPlace(tracks, admissions, i, k);
      OnlyPlace(audio, recording, CountAudio(tracks, admissions[..i]));
    }
  }

  // ---- A whole run ----

  /** Host and consumer run against each other: for a valid offer that resolves, both
      reject the selection, both name the same required refusal, or both succeed, and then
      every admitted track has its channel or a ring that fits. Nothing a failed run
      claimed stays claimed. */
  method Run(host: Host, tracks: seq<Track>, rings: seq<Ring>, hasTarget: bool, selection: seq<Selected>)
    returns (h: HostResult, c: ConsumerResult)
    requires ValidOffer(tracks, rings) && Resolves(tracks, rings) && Created(rings)
    modifies host
    ensures h.InvalidSelection? <==> c.BadSelection?
    ensures h.Refused? <==> c.SetupRefused?
    ensures h.Refused? ==> c.refusal == h.refusal
    ensures h.Accepted? <==> c.Connected?
    ensures h.InvalidSelection? || h.Refused? || h.Accepted?
    ensures !h.Accepted? ==> host.leased == old(host.leased)
    ensures c.Connected? ==>
              var purposes, audio := ChannelKinds(tracks, h.admissions), AudioTracks(tracks, h.admissions);
              && c.input == Held(purposes, InputEnd) && c.affordances == Held(purposes, AffordancesEnd)
              && c.channel == ChannelEnd(TracksEnd) && c.doorbell == Bell(tracks, h.admissions)
              && TracksOf(c.playback) == Only(audio, false) && TracksOf(c.recording) == Only(audio, true)
              && GoodMaps(c.playback) && GoodMaps(c.recording)
    ensures c.Connected? ==>
              && (c.input.Some? <==> Admits(tracks, h.admissions, Input))
              && (c.affordances.Some? <==> Admits(tracks, h.admissions, Affordances))
              && (c.doorbell <==> Admits(tracks, h.admissions, Video) || Admits(tracks, h.admissions, Playback))
              && HasRingsOf(tracks, h.admissions, c.playback, Playback)
              && HasRingsOf(tracks, h.admissions, c.recording, Recording)
  {
    ghost var during: set<nat>;
    h, during := host.Accept(tracks, rings, hasTarget, selection);
    match h {
      case InvalidOffer =>
        c := BadSelection;
      case InvalidSelection =>
        c := Select(tracks, selection, [], []);
      case Refused(admissions, _) =>
        c := Select(tracks, selection, admissions, []);
      case SendFailed(admissions) =>
        TransfersAgree(tracks, rings, hasTarget, during, selection, admissions);
        c := BadTransfer;
      case Accepted(admissions, transfers) =>
        TransfersAgree(tracks, rings, hasTarget, during, selection, admissions);
        c := Select(tracks, selection, admissions, transfers);
        ChannelsAreAdmitted(tracks, admissions);
        BellIsAdmitted(tracks, admissions);
        OnlyAdmitted(tracks, admissions, c.playback, Playback);
        OnlyAdmitted(tracks, admissions, c.recording, Recording);
    }
  }
}
