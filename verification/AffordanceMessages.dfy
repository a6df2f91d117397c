/** Messages of an affordances channel: the envelope, verbs, and what the receiving end
    makes of any JSON value (crates/jackstay/src/affordances.rs, `wire`, `validate_verb`,
    `decode`, `Channel::publish`, `Host::send`). */
module AffordanceMessages {
  import opened Options
  import opened Snapshots

  datatype Verb = Verb(domain: Domain, name: string, body: Json)

  datatype Event = Changed(snapshot: Snapshot) | Invoked(verb: Verb) | Closed

  /** A message closes the channel, says nothing to this end, or is an event. */
  datatype Meaning = Malformed | Ignored | Means(event: Event)

  type Cache = map<Domain, Snapshot>

  function DomainName(d: Domain): string {
    match d
    case MediaDomain => "media"
    case NavigationDomain => "navigation"
    case CursorDomain => "cursor"
    case ScrollDomain => "scroll"
    case WindowDomain => "window"
    case PresentationDomain => "presentation"
  }

  function ParseDomain(s: string): Option<Domain> {
    if s == "media" then Some(MediaDomain)
    else if s == "navigation" then Some(NavigationDomain)
    else if s == "cursor" then Some(CursorDomain)
    else if s == "scroll" then Some(ScrollDomain)
    else if s == "window" then Some(WindowDomain)
    else if s == "presentation" then Some(PresentationDomain)
    else None
  }

  function Wire(s: Snapshot): Json {
    Obj(map["version" := Int(1), "domain" := Str(DomainName(DomainOf(s))), "domain_version" := Int(1),
            "kind" := Str("snapshot"), "body" := Body(s)])
  }

  function VerbWire(v: Verb): Json {
    Obj(map["version" := Int(1), "domain" := Str(DomainName(v.domain)), "domain_version" := Int(1),
            "kind" := Str("verb"), "verb" := Str(v.name), "body" := v.body])
  }

  /** The end that publishes a domain: the host publishes presentation, the producer the rest. */
  predicate Owns(producer: bool, d: Domain) {
    (d == PresentationDomain) != producer
  }

  /** What `publish` puts on the wire and into its own cache, or nothing. */
  function Prepare(producer: bool, s: Snapshot): Option<Snapshot> {
    if !Owns(producer, DomainOf(s)) || !TimesFinite(s) then None
    else ParseSnapshot(DomainOf(s), Body(s))
  }

  // ---- Verbs ----

  /** None when malformed; otherwise whether this end understands it. */
  function ValidateVerb(v: Verb): Option<bool> {
    if !v.body.Obj? then None
    else if v.domain == MediaDomain && v.name == "seek_absolute" then
      if Nonnegative(Get(v.body, "position")) then Some(true) else None
    else if v.domain == MediaDomain && v.name == "seek_relative" then
      if Number(Get(v.body, "offset")).Some? then Some(true) else None
    else if v.domain == NavigationDomain && v.name == "load" then
      if Get(v.body, "url").Str? then Some(true) else None
    else if v.domain == ScrollDomain then
      var axis := Get(v.body, "axis");
      if !axis.Str? then None
      else if axis.s !in {"x", "y"} then Some(false)
      else if v.name == "set_position" then
        if Number(Get(v.body, "position")).Some? then Some(true) else None
      else
        var step, direction := Get(v.body, "step"), Get(v.body, "direction");
        if !step.Str? || !direction.Str? then None
        else Some(step.s in {"small", "large"} && direction.s in {"decrement", "increment"})
    else Some(true)
  }

  /** What `Host::send` lets out. */
  predicate Sendable(v: Verb) {
    KnownVerb(v.domain, v.name) && ValidateVerb(v) == Some(true)
  }

  function CapsOf(s: Snapshot): Capabilities {
    match s
    case Media(_, _, _, _, _, _, caps) => caps
    case Navigation(_, _, _, _, _, caps) => caps
    case Scroll(_, _, caps) => caps
    case _ => map[]
  }

  predicate Offers(s: Snapshot, name: string) {
    name in CapsOf(s) && CapsOf(s)[name]
  }

  /** The axis a scroll verb names is scrollable. */
  predicate AxisMoves(s: Snapshot, v: Verb) {
    s.Scroll? ==>
      && (Get(v.body, "axis") == Str("x") ==> s.x.scrollable)
      && (Get(v.body, "axis") == Str("y") ==> s.y.scrollable)
  }

  /** The verb is switched on by the snapshot the cache holds for its domain. */
  predicate Enabled(cache: Cache, v: Verb) {
    v.domain in cache && Offers(cache[v.domain], v.name) && AxisMoves(cache[v.domain], v)
  }

  // ---- Decoding ----

  /** The gate reads the cached snapshot's JSON body, as the receiver does. */
  predicate GateOpen(cache: Cache, d: Domain, name: string) {
    d in cache && Get(Get(Body(cache[d]), "capabilities"), name) == Bool(true)
  }

  function DecodeVerb(d: Domain, o: Json, cache: Cache): Meaning {
    var name := Get(o, "verb");
    if !name.Str? then Malformed
    else if !KnownVerb(d, name.s) || !GateOpen(cache, d, name.s) then Ignored
    else if !o.Obj? || "body" !in o.fields then Malformed
    else
      var verb := Verb(d, name.s, o.fields["body"]);
      match ValidateVerb(verb)
      case None => Malformed
      case Some(understood) =>
        if understood && AxisMoves(cache[d], verb) then Means(Invoked(verb)) else Ignored
  }

  function DecodeSnapshot(d: Domain, o: Json): Meaning {
    if !o.Obj? || "body" !in o.fields then Malformed
    else
      var s := ParseSnapshot(d, o.fields["body"]);
      if s.Some? then Means(Changed(s.value)) else Malformed
  }

  /** Whether the value is an unsigned integer. */
  predicate IsU64(v: Json) {
    v.Int? && 0 <= v.n < 0x1_0000_0000_0000_0000
  }

  function Decode(v: Json, cache: Cache, producer: bool): Meaning {
    var version, name := Get(v, "version"), Get(v, "domain");
    var domainVersion, kind := Get(v, "domain_version"), Get(v, "kind");
    if !v.Obj? || !IsU64(version) || !name.Str? || !IsU64(domainVersion) || !kind.Str? || version != Int(1) then
      Malformed
    else
      match ParseDomain(name.s)
      case None => Ignored
      case Some(d) =>
        if domainVersion != Int(1) then Ignored
        else if kind.s == "snapshot" then
          if Owns(producer, d) then Malformed else DecodeSnapshot(d, v)
        else if kind.s == "verb" then
          if !producer || d !in {MediaDomain, NavigationDomain, ScrollDomain} then Malformed
          else DecodeVerb(d, v, cache)
        else Ignored
  }

  // ---- Properties ----

  lemma DomainRoundTrip(d: Domain)
    ensures ParseDomain(DomainName(d)) == Some(d)
  {
  }

  /** Publishing accepts exactly the sound snapshots of the domains this end owns, and
      their normal form is what is sent. */
  lemma PrepareNormalises(producer: bool, s: Snapshot)
    ensures Prepare(producer, s) == if Owns(producer, DomainOf(s)) && Sound(s) then Some(Normal(s)) else None
  {
    if Owns(producer, DomainOf(s)) && TimesFinite(s) {
      BodyParses(s);
    }
  }

  lemma CapsInBody(s: Snapshot, name: string)
    ensures Get(Get(Body(s), "capabilities"), name) == Bool(true) <==> Offers(s, name)
  {
    match s
    case Media(_, _, _, _, _, _, caps) => assert Get(Body(s), "capabilities") == CapsJson(caps);
    case Navigation(_, _, _, _, _, caps) => assert Get(Body(s), "capabilities") == CapsJson(caps);
    case Scroll(_, _, caps) => assert Get(Body(s), "capabilities") == CapsJson(caps);
    case _ => assert Get(Body(s), "capabilities") == Null;
  }

  /** The peer of the publishing end reads a canonical snapshot back whole. */
  lemma DecodeInvertsWire(s: Snapshot, cache: Cache, producer: bool)
    requires Canonical(s) && !Owns(producer, DomainOf(s))
    ensures Decode(Wire(s), cache, producer) == Means(Changed(s))
  {
    var v, d := Wire(s), DomainOf(s);
    assert Get(v, "version") == Int(1) && Get(v, "domain_version") == Int(1);
    assert Get(v, "domain") == Str(DomainName(d)) && Get(v, "kind") == Str("snapshot");
    assert v.fields["body"] == Body(s);
    DomainRoundTrip(d);
    NormalIsFixed(s);
    BodyParses(s);
  }

  /** A verb the host lets out never closes the channel: the producer gets it exactly when
      its current snapshot enables it, and ignores it otherwise. */
  lemma VerbArrives(v: Verb, cache: Cache)
    requires Sendable(v)
    ensures Decode(VerbWire(v), cache, true) == if Enabled(cache, v) then Means(Invoked(v)) else Ignored
  {
    var o := VerbWire(v);
    assert Get(o, "version") == Int(1) && Get(o, "domain_version") == Int(1);
    assert Get(o, "domain") == Str(DomainName(v.domain)) && Get(o, "kind") == Str("verb");
    assert Get(o, "verb") == Str(v.name) && o.fields["body"] == v.body;
    DomainRoundTrip(v.domain);
    if v.domain in cache {
      CapsInBody(cache[v.domain], v.name);
    }
  }

  /** Whatever JSON arrives, an event is a canonical snapshot of a domain the peer owns,
      or a verb that the cache enables. */
  lemma DecodeIsSafe(v: Json, cache: Cache, producer: bool)
    requires Decode(v, cache, producer).Means?
    ensures match Decode(v, cache, producer).event
            case Changed(s) => Canonical(s) && !Owns(producer, DomainOf(s))
            case Invoked(verb) =>
              producer && Sendable(verb) && Enabled(cache, verb) && Owns(producer, verb.domain)
            case Closed => false
  {
    var d := ParseDomain(Get(v, "domain").s).value;
    if Get(v, "kind").s == "snapshot" {
      ParseIsCanonical(d, v.fields["body"]);
    } else {
      CapsInBody(cache[d], Get(v, "verb").s);
    }
  }

  /** A verb that is unknown, withdrawn or switched off is ignored whatever its body, so a
      malformed body closes the channel only when the verb is enabled. */
  lemma GatePrecedesBody(d: Domain, name: string, cache: Cache, o: map<string, Json>)
    requires d in {MediaDomain, NavigationDomain, ScrollDomain}
    requires !(KnownVerb(d, name) && d in cache && Offers(cache[d], name))
    requires {"version", "domain", "domain_version", "kind", "verb"} <= o.Keys
    requires o["version"] == Int(1) && o["domain"] == Str(DomainName(d)) && o["domain_version"] == Int(1)
    requires o["kind"] == Str("verb") && o["verb"] == Str(name)
    ensures Decode(Obj(o), cache, true) == Ignored
  {
    DomainRoundTrip(d);
    if d in cache {
      CapsInBody(cache[d], name);
    }
  }

  // ---- The wire, key by key ----

  lemma DomainNames()
    ensures ParseDomain("media") == Some(MediaDomain) && ParseDomain("navigation") == Some(NavigationDomain)
    ensures ParseDomain("cursor") == Some(CursorDomain) && ParseDomain("scroll") == Some(ScrollDomain)
    ensures ParseDomain("window") == Some(WindowDomain) && ParseDomain("presentation") == Some(PresentationDomain)
    ensures forall name | ParseDomain(name).Some? ::
              name in {"media", "navigation", "cursor", "scroll", "window", "presentation"}
  {
  }

  /** The envelope comes first: a version other than 1 or a missing or mistyped key closes the
      channel; an unknown domain, domain version or kind is ignored; a snapshot of a domain
      this end publishes, or a verb at a host, closes the channel. */
  lemma EnvelopeRules(o: map<string, Json>, cache: Cache, producer: bool)
    ensures var meaning := Decode(Obj(o), cache, producer);
            if !({"version", "domain", "domain_version", "kind"} <= o.Keys) then meaning == Malformed
            else if !(IsU64(o["version"]) && IsU64(o["domain_version"]) && o["domain"].Str? && o["kind"].Str?) then
              meaning == Malformed
            else if o["version"] != Int(1) then meaning == Malformed
            else if ParseDomain(o["domain"].s).None? || o["domain_version"] != Int(1) then meaning == Ignored
            else if o["kind"] == Str("snapshot") then
              var presentation := o["domain"] == Str("presentation");
              if presentation != producer then meaning == Malformed
              else meaning == DecodeSnapshot(ParseDomain(o["domain"].s).value, Obj(o))
            else if o["kind"] == Str("verb") then
              (!producer || o["domain"].s !in {"media", "navigation", "scroll"} ==> meaning == Malformed)
            else meaning == Ignored
  {
    DomainNames();
  }

  /** A snapshot message is read from its "body" alone. */
  lemma SnapshotBody(d: Domain, o: map<string, Json>)
    ensures DecodeSnapshot(d, Obj(o)) ==
            if "body" in o && ParseSnapshot(d, o["body"]).Some? then Means(Changed(ParseSnapshot(d, o["body"]).value))
            else Malformed
  {
  }

  /** The bodies a host may send, verb by verb. */
  lemma SendableByVerb(d: Domain, name: string, body: Json)
    ensures Sendable(Verb(d, name, body)) <==>
            && KnownVerb(d, name) && body.Obj?
            && (d == MediaDomain && name == "seek_absolute" ==> Nonnegative(Get(body, "position")))
            && (d == MediaDomain && name == "seek_relative" ==> Number(Get(body, "offset")).Some?)
            && (d == NavigationDomain && name == "load" ==> Get(body, "url").Str?)
            && (d == ScrollDomain ==> Get(body, "axis") in {Str("x"), Str("y")})
            && (d == ScrollDomain && name == "set_position" ==> Number(Get(body, "position")).Some?)
            && (d == ScrollDomain && name == "scroll_by_step" ==>
                  && Get(body, "step") in {Str("small"), Str("large")}
                  && Get(body, "direction") in {Str("decrement"), Str("increment")})
  {
  }

  /** A verb message as it stands on the wire. */
  predicate IsVerbMessage(o: map<string, Json>, domain: string, name: string, body: Json) {
    && {"version", "domain", "domain_version", "kind", "verb", "body"} <= o.Keys
    && o["version"] == Int(1) && o["domain"] == Str(domain) && o["domain_version"] == Int(1)
    && o["kind"] == Str("verb") && o["verb"] == Str(name) && o["body"] == body
  }

  /** A scroll verb switched on by the cached snapshot arrives exactly when the axis it names
      is scrollable. */
  lemma ScrollVerbByAxis(o: map<string, Json>, cache: Cache, x: Axis, y: Axis, caps: Capabilities,
                         name: string, body: Json)
    requires IsVerbMessage(o, "scroll", name, body) && Sendable(Verb(ScrollDomain, name, body))
    requires ScrollDomain in cache && cache[ScrollDomain] == Scroll(x, y, caps) && name in caps && caps[name]
    ensures var meaning, event := Decode(Obj(o), cache, true), Invoked(Verb(ScrollDomain, name, body));
            && (Get(body, "axis") == Str("x") ==> meaning == if x.scrollable then Means(event) else Ignored)
            && (Get(body, "axis") == Str("y") ==> meaning == if y.scrollable then Means(event) else Ignored)
  {
    VerbMessage(o, ScrollDomain, name, body, cache);
  }

  /** A media or navigation verb switched on by the cached snapshot arrives. */
  lemma OtherVerbByCaps(o: map<string, Json>, cache: Cache, d: Domain, name: string, body: Json)
    requires d == MediaDomain || d == NavigationDomain
    requires IsVerbMessage(o, if d == MediaDomain then "media" else "navigation", name, body)
    requires Sendable(Verb(d, name, body)) && d in cache && DomainOf(cache[d]) == d
    ensures var on := match cache[d]
                      case Media(_, _, _, _, _, _, caps) => name in caps && caps[name]
                      case Navigation(_, _, _, _, _, caps) => name in caps && caps[name]
                      case _ => false;
            Decode(Obj(o), cache, true) == if on then Means(Invoked(Verb(d, name, body))) else Ignored
  {
    VerbMessage(o, d, name, body, cache);
  }

  /** A verb message means what the host's own form of that verb means. */
  lemma VerbMessage(o: map<string, Json>, d: Domain, name: string, body: Json, cache: Cache)
    requires IsVerbMessage(o, DomainName(d), name, body) && Sendable(Verb(d, name, body))
    ensures var v := Verb(d, name, body);
            Decode(Obj(o), cache, true) == if Enabled(cache, v) then Means(Invoked(v)) else Ignored
  {
    DomainRoundTrip(d);
    if d in cache {
      CapsInBody(cache[d], name);
    }
  }
}
