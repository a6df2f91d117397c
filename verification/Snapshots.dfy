/** The semantic state snapshots of an affordances channel and their JSON bodies
    (crates/jackstay/src/affordances.rs, `Snapshot`, `parse_snapshot`). JSON text is not
    modelled: a value stands for its text. Finite numbers are reals. */
module Snapshots {
  import opened Options

  datatype Json =
    | Null
    | Bool(b: bool)
    | Int(n: int)
    | Float(r: real)
    | Str(s: string)
    | Arr(items: seq<Json>)
    | Obj(fields: map<string, Json>)

  /** A double in a snapshot handed to `publish`: JSON has no form for the others. */
  datatype F64 = Finite(r: real) | NonFinite

  datatype Domain = MediaDomain | NavigationDomain | CursorDomain | ScrollDomain | WindowDomain | PresentationDomain

  datatype Size = Size(width: F64, height: F64)

  datatype Artwork = Url(url: string) | Icon(name: string)

  datatype Axis = Axis(scrollable: bool, content: F64, viewport: F64, position: F64)

  type Capabilities = map<string, bool>

  datatype Snapshot =
    | Media(status: string, position: Option<F64>, rate: F64, duration: Option<F64>,
            mediaTitle: Option<string>, artwork: Option<Artwork>, mediaCaps: Capabilities)
    | Navigation(url: Option<string>, pageTitle: Option<string>, canGoBack: bool, canGoForward: bool,
                 loading: bool, navigationCaps: Capabilities)
    | Cursor(shape: string)
    | Scroll(x: Axis, y: Axis, scrollCaps: Capabilities)
    | Window(windowTitle: Option<string>, requestedSize: Option<Size>, ready: bool)
    | Presentation(visible: bool, preferredSize: Option<Size>, scale: F64, focused: bool)
    | Withdraw(domain: Domain)

  function DomainOf(s: Snapshot): Domain {
    match s
    case Media(_, _, _, _, _, _, _) => MediaDomain
    case Navigation(_, _, _, _, _, _) => NavigationDomain
    case Cursor(_) => CursorDomain
    case Scroll(_, _, _) => ScrollDomain
    case Window(_, _, _) => WindowDomain
    case Presentation(_, _, _, _) => PresentationDomain
    case Withdraw(d) => d
  }

  // ---- The vocabulary ----

  const STATUSES := {"playing", "paused", "stopped", "buffering", "unknown"}

  const MEDIA_VERBS := {"play", "pause", "stop", "next", "previous", "seek_absolute", "seek_relative"}

  const NAVIGATION_VERBS := {"back", "forward", "reload", "stop", "load"}

  const SCROLL_VERBS := {"scroll_by_step", "set_position"}

  const CURSORS := {
    "auto", "default", "none", "context-menu", "help", "pointer", "progress", "wait", "cell", "crosshair", "text",
    "vertical-text", "alias", "copy", "move", "no-drop", "not-allowed", "grab", "grabbing", "e-resize", "n-resize",
    "ne-resize", "nw-resize", "s-resize", "se-resize", "sw-resize", "w-resize", "ew-resize", "ns-resize",
    "nesw-resize", "nwse-resize", "col-resize", "row-resize", "all-scroll", "zoom-in", "zoom-out"
  }

  predicate KnownVerb(d: Domain, name: string) {
    match d
    case MediaDomain => name in MEDIA_VERBS
    case NavigationDomain => name in NAVIGATION_VERBS
    case ScrollDomain => name in SCROLL_VERBS
    case CursorDomain => false
    case WindowDomain => false
    case PresentationDomain => false
  }

  // ---- Values to JSON ----

  function NumberJson(f: F64): Json {
    if f.Finite? then Float(f.r) else Null
  }

  function OptNumberJson(f: Option<F64>): Json {
    if f.Some? then NumberJson(f.value) else Null
  }

  function OptStringJson(s: Option<string>): Json {
    if s.Some? then Str(s.value) else Null
  }

  function CapsJson(caps: Capabilities): Json {
    Obj(map name | name in caps :: Bool(caps[name]))
  }

  function SizeJson(size: Option<Size>): Json {
    match size
    case None => Null
    case Some(z) => Obj(map["width" := NumberJson(z.width), "height" := NumberJson(z.height)])
  }

  function ArtworkJson(art: Option<Artwork>): Json {
    match art
    case None => Null
    case Some(Url(url)) => Obj(map["kind" := Str("url"), "url" := Str(url)])
    case Some(Icon(name)) => Obj(map["kind" := Str("icon"), "name" := Str(name)])
  }

  function AxisJson(a: Axis): Json {
    Obj(map["scrollable" := Bool(a.scrollable), "content_length" := NumberJson(a.content),
            "viewport_length" := NumberJson(a.viewport), "position" := NumberJson(a.position)])
  }

  function Body(s: Snapshot): Json {
    match s
    case Media(status, position, rate, duration, title, artwork, caps) =>
      Obj(map["status" := Str(status), "position" := OptNumberJson(position), "rate" := NumberJson(rate),
              "duration" := OptNumberJson(duration), "title" := OptStringJson(title),
              "artwork" := ArtworkJson(artwork), "capabilities" := CapsJson(caps)])
    case Navigation(url, title, back, forward, loading, caps) =>
      Obj(map["url" := OptStringJson(url), "title" := OptStringJson(title), "can_go_back" := Bool(back),
              "can_go_forward" := Bool(forward), "loading" := Bool(loading), "capabilities" := CapsJson(caps)])
    case Cursor(shape) => Obj(map["shape" := Str(shape)])
    case Scroll(x, y, caps) => Obj(map["x" := AxisJson(x), "y" := AxisJson(y), "capabilities" := CapsJson(caps)])
    case Window(title, size, ready) =>
      Obj(map["title" := OptStringJson(title), "requested_size" := SizeJson(size), "ready" := Bool(ready)])
    case Presentation(visible, size, scale, focused) =>
      Obj(map["visible" := Bool(visible), "preferred_size" := SizeJson(size), "scale" := NumberJson(scale),
              "focused" := Bool(focused)])
    case Withdraw(_) => Null
  }

  // ---- JSON to values ----

  /** Indexing an absent key, or anything but an object, gives null. */
  function Get(v: Json, key: string): Json {
    if v.Obj? && key in v.fields then v.fields[key] else Null
  }

  function Number(v: Json): Option<real> {
    match v
    case Int(n) => Some(n as real)
    case Float(r) => Some(r)
    case _ => None
  }

  function ReadNumber(v: Json): Option<F64> {
    var n := Number(v);
    if n.Some? then Some(Finite(n.value)) else None
  }

  predicate Nonnegative(v: Json) {
    Number(v).Some? && Number(v).value >= 0.0
  }

  predicate Positive(v: Json) {
    Number(v).Some? && Number(v).value > 0.0
  }

  function ReadOptNumber(v: Json): Option<Option<F64>> {
    if v.Null? then Some(None)
    else if ReadNumber(v).Some? then Some(ReadNumber(v))
    else None
  }

  function ReadOptString(v: Json): Option<Option<string>> {
    match v
    case Null => Some(None)
    case Str(s) => Some(Some(s))
    case _ => None
  }

  predicate AllFlags(fields: map<string, Json>) {
    forall name | name in fields :: fields[name].Bool?
  }

  function Flags(fields: map<string, Json>): Capabilities
    requires AllFlags(fields)
  {
    map name | name in fields :: fields[name].b
  }

  function KeepFields(d: Domain, fields: map<string, Json>): map<string, Json> {
    map name | name in fields && KnownVerb(d, name) :: fields[name]
  }

  /** Unknown verbs are dropped before the flags of the rest are read. */
  function ReadCaps(d: Domain, v: Json): Option<Capabilities> {
    if !v.Obj? then None
    else
      var kept := KeepFields(d, v.fields);
      if AllFlags(kept) then Some(Flags(kept)) else None
  }

  function ReadSize(v: Json): Option<Option<Size>> {
    if v.Null? then Some(None)
    else if Positive(Get(v, "width")) && Positive(Get(v, "height")) then
      Some(Some(Size(Finite(Number(Get(v, "width")).value), Finite(Number(Get(v, "height")).value))))
    else None
  }

  /** An artwork of an unknown kind is dropped. */
  function ReadArtwork(v: Json): Option<Option<Artwork>> {
    if v.Null? then Some(None)
    else
      match Get(v, "kind")
      case Str(kind) =>
        if kind == "url" then
          if Get(v, "url").Str? then Some(Some(Url(Get(v, "url").s))) else None
        else if kind == "icon" then
          if Get(v, "name").Str? then Some(Some(Icon(Get(v, "name").s))) else None
        else Some(None)
      case _ => None
  }

  function Max(a: real, b: real): real {
    if a >= b then a else b
  }

  function ReadAxis(v: Json): Option<Axis> {
    var content, viewport, position := Get(v, "content_length"), Get(v, "viewport_length"), Get(v, "position");
    var scrollable := Get(v, "scrollable");
    if !Nonnegative(content) || !Nonnegative(viewport) || !Nonnegative(position) then None
    else
      var c, w, p := Number(content).value, Number(viewport).value, Number(position).value;
      if p > Max(c - w, 0.0) || (scrollable == Bool(false) && p != 0.0) then None
      else if !scrollable.Bool? then None
      else Some(Axis(scrollable.b, Finite(c), Finite(w), Finite(p)))
  }

  function Required(d: Domain): set<string> {
    match d
    case MediaDomain => {"status", "position", "rate", "duration", "title", "artwork", "capabilities"}
    case NavigationDomain => {"url", "title", "can_go_back", "can_go_forward", "loading", "capabilities"}
    case CursorDomain => {"shape"}
    case ScrollDomain => {"x", "y", "capabilities"}
    case WindowDomain => {"title", "requested_size", "ready"}
    case PresentationDomain => {"visible", "preferred_size", "scale", "focused"}
  }

  function ReadMedia(v: Json): Option<Snapshot> {
    var caps := ReadCaps(MediaDomain, Get(v, "capabilities"));
    var position, duration := Get(v, "position"), Get(v, "duration");
    var rate, title := ReadNumber(Get(v, "rate")), ReadOptString(Get(v, "title"));
    var status, artwork := Get(v, "status"), ReadArtwork(Get(v, "artwork"));
    if || caps.None? || rate.None? || title.None? || artwork.None? || !status.Str?
       || !(position.Null? || Nonnegative(position)) || !(duration.Null? || Nonnegative(duration)) then None
    else if !position.Null? && !duration.Null? && Number(position).value > Number(duration).value then None
    else
      Some(Media(if status.s in STATUSES then status.s else "unknown", ReadOptNumber(position).value, rate.value,
                 ReadOptNumber(duration).value, title.value, artwork.value, caps.value))
  }

  function ReadNavigation(v: Json): Option<Snapshot> {
    var caps := ReadCaps(NavigationDomain, Get(v, "capabilities"));
    var url, title := ReadOptString(Get(v, "url")), ReadOptString(Get(v, "title"));
    var back, forward, loading := Get(v, "can_go_back"), Get(v, "can_go_forward"), Get(v, "loading");
    if caps.None? || url.None? || title.None? || !back.Bool? || !forward.Bool? || !loading.Bool? then None
    else Some(Navigation(url.value, title.value, back.b, forward.b, loading.b, caps.value))
  }

  function ReadCursor(v: Json): Option<Snapshot> {
    match Get(v, "shape")
    case Str(shape) => Some(Cursor(if shape in CURSORS then shape else "default"))
    case _ => None
  }

  function ReadScroll(v: Json): Option<Snapshot> {
    var caps := ReadCaps(ScrollDomain, Get(v, "capabilities"));
    var x, y := ReadAxis(Get(v, "x")), ReadAxis(Get(v, "y"));
    if caps.None? || x.None? || y.None? then None else Some(Scroll(x.value, y.value, caps.value))
  }

  function ReadWindow(v: Json): Option<Snapshot> {
    var title, size, ready := ReadOptString(Get(v, "title")), ReadSize(Get(v, "requested_size")), Get(v, "ready");
    if title.None? || size.None? || !ready.Bool? then None else Some(Window(title.value, size.value, ready.b))
  }

  function ReadPresentation(v: Json): Option<Snapshot> {
    var size, scale := ReadSize(Get(v, "preferred_size")), Get(v, "scale");
    var visible, focused := Get(v, "visible"), Get(v, "focused");
    if size.None? || !Positive(scale) || !visible.Bool? || !focused.Bool? then None
    else Some(Presentation(visible.b, size.value, Finite(Number(scale).value), focused.b))
  }

  /** Read and normalise a body; every failure is the same malformed-message error. */
  function ParseSnapshot(d: Domain, v: Json): (r: Option<Snapshot>)
    ensures r.Some? ==> DomainOf(r.value) == d && (r.value.Withdraw? <==> v.Null?)
  {
    if v.Null? then Some(Withdraw(d))
    else if !v.Obj? || !(Required(d) <= v.fields.Keys) then None
    else
      match d
      case MediaDomain => ReadMedia(v)
      case NavigationDomain => ReadNavigation(v)
      case CursorDomain => ReadCursor(v)
      case ScrollDomain => ReadScroll(v)
      case WindowDomain => ReadWindow(v)
      case PresentationDomain => ReadPresentation(v)
  }

  // ---- Canonical snapshots ----

  predicate AtLeast(f: F64, low: real) {
    f.Finite? && f.r >= low
  }

  predicate Over(f: F64, low: real) {
    f.Finite? && f.r > low
  }

  predicate ValidSize(size: Option<Size>) {
    size.Some? ==> Over(size.value.width, 0.0) && Over(size.value.height, 0.0)
  }

  /** The scroll position lies in what the content leaves beside the viewport. */
  predicate ValidAxis(a: Axis) {
    && AtLeast(a.content, 0.0) && AtLeast(a.viewport, 0.0) && AtLeast(a.position, 0.0)
    && (a.position.r == 0.0 || (a.scrollable && a.position.r <= a.content.r - a.viewport.r))
  }

  predicate ValidTimes(position: Option<F64>, duration: Option<F64>) {
    && (position.Some? ==> AtLeast(position.value, 0.0))
    && (duration.Some? ==> AtLeast(duration.value, 0.0))
    && (position.Some? && duration.Some? ==> position.value.r <= duration.value.r)
  }

  predicate KnownCaps(d: Domain, caps: Capabilities) {
    forall name | name in caps :: KnownVerb(d, name)
  }

  /** Values a snapshot may carry at all, whatever its vocabulary. */
  predicate Sound(s: Snapshot) {
    match s
    case Media(_, position, rate, duration, _, _, _) => ValidTimes(position, duration) && rate.Finite?
    case Navigation(_, _, _, _, _, _) => true
    case Cursor(_) => true
    case Scroll(x, y, _) => ValidAxis(x) && ValidAxis(y)
    case Window(_, size, _) => ValidSize(size)
    case Presentation(_, size, scale, _) => ValidSize(size) && Over(scale, 0.0)
    case Withdraw(_) => true
  }

  /** A sound snapshot that uses only the known vocabulary. */
  predicate Canonical(s: Snapshot) {
    && Sound(s)
    && match s
       case Media(status, _, _, _, _, _, caps) => status in STATUSES && KnownCaps(MediaDomain, caps)
       case Navigation(_, _, _, _, _, caps) => KnownCaps(NavigationDomain, caps)
       case Cursor(shape) => shape in CURSORS
       case Scroll(_, _, caps) => KnownCaps(ScrollDomain, caps)
       case Window(_, _, _) => true
       case Presentation(_, _, _, _) => true
       case Withdraw(_) => true
  }

  function KeepKnown(d: Domain, caps: Capabilities): Capabilities {
    map name | name in caps && KnownVerb(d, name) :: caps[name]
  }

  /** What a publisher's snapshot becomes: unknown words take their default. */
  function Normal(s: Snapshot): Snapshot {
    match s
    case Media(status, _, _, _, _, _, caps) =>
      s.(status := if status in STATUSES then status else "unknown", mediaCaps := KeepKnown(MediaDomain, caps))
    case Navigation(_, _, _, _, _, caps) => s.(navigationCaps := KeepKnown(NavigationDomain, caps))
    case Cursor(shape) => Cursor(if shape in CURSORS then shape else "default")
    case Scroll(_, _, caps) => s.(scrollCaps := KeepKnown(ScrollDomain, caps))
    case Window(_, _, _) => s
    case Presentation(_, _, _, _) => s
    case Withdraw(_) => s
  }

  /** Numbers JSON would turn into null where null means absent. */
  predicate TimesFinite(s: Snapshot) {
    s.Media? ==> (s.position.Some? ==> s.position.value.Finite?) && (s.duration.Some? ==> s.duration.value.Finite?)
  }

  // ---- Parts ----

  lemma CapsRead(d: Domain, caps: Capabilities)
    ensures ReadCaps(d, CapsJson(caps)) == Some(KeepKnown(d, caps))
  {
    var kept, known := KeepFields(d, CapsJson(caps).fields), KeepKnown(d, caps);
    assert kept.Keys == known.Keys;
    assert forall name | name in kept :: kept[name] == Bool(known[name]);
    assert AllFlags(kept);
    assert Flags(kept) == known;
  }

  lemma CapsAreKnown(d: Domain, v: Json)
    ensures ReadCaps(d, v).Some? ==> KnownCaps(d, ReadCaps(d, v).value)
  {
  }

  lemma KnownStay(d: Domain, caps: Capabilities)
    ensures KnownCaps(d, KeepKnown(d, caps))
    ensures KnownCaps(d, caps) <==> KeepKnown(d, caps) == caps
  {
    if KnownCaps(d, caps) {
      assert KeepKnown(d, caps) == caps;
    }
  }

  lemma SizeRead(size: Option<Size>)
    ensures ReadSize(SizeJson(size)) == if ValidSize(size) then Some(size) else None
  {
  }

  lemma AxisRead(a: Axis)
    ensures ReadAxis(AxisJson(a)) == if ValidAxis(a) then Some(a) else None
  {
    var v := AxisJson(a);
    assert Get(v, "content_length") == NumberJson(a.content);
    assert Get(v, "viewport_length") == NumberJson(a.viewport);
    assert Get(v, "position") == NumberJson(a.position);
    assert Get(v, "scrollable") == Bool(a.scrollable);
  }

  lemma AxisIsValid(v: Json)
    ensures ReadAxis(v).Some? ==> ValidAxis(ReadAxis(v).value)
  {
  }

  lemma ArtworkRead(art: Option<Artwork>)
    ensures ReadArtwork(ArtworkJson(art)) == Some(art)
  {
  }

  // ---- Main results ----

  lemma MediaFields(s: Snapshot)
    requires s.Media?
    ensures var v := Body(s);
            && Get(v, "capabilities") == CapsJson(s.mediaCaps) && Get(v, "artwork") == ArtworkJson(s.artwork)
            && Get(v, "position") == OptNumberJson(s.position) && Get(v, "duration") == OptNumberJson(s.duration)
            && Get(v, "rate") == NumberJson(s.rate) && Get(v, "title") == OptStringJson(s.mediaTitle)
            && Get(v, "status") == Str(s.status)
  {
  }

  lemma MediaParses(s: Snapshot)
    requires s.Media? && TimesFinite(s)
    ensures ReadMedia(Body(s)) == if Sound(s) then Some(Normal(s)) else None
  {
    MediaFields(s);
    CapsRead(MediaDomain, s.mediaCaps);
    ArtworkRead(s.artwork);
  }

  lemma NavigationParses(s: Snapshot)
    requires s.Navigation?
    ensures ReadNavigation(Body(s)) == Some(Normal(s))
  {
    var v := Body(s);
    CapsRead(NavigationDomain, s.navigationCaps);
    assert Get(v, "capabilities") == CapsJson(s.navigationCaps);
    assert Get(v, "url") == OptStringJson(s.url) && Get(v, "title") == OptStringJson(s.pageTitle);
  }

  lemma ScrollParses(s: Snapshot)
    requires s.Scroll?
    ensures ReadScroll(Body(s)) == if Sound(s) then Some(Normal(s)) else None
  {
    var v := Body(s);
    CapsRead(ScrollDomain, s.scrollCaps);
    AxisRead(s.x);
    AxisRead(s.y);
    assert Get(v, "capabilities") == CapsJson(s.scrollCaps);
    assert Get(v, "x") == AxisJson(s.x) && Get(v, "y") == AxisJson(s.y);
  }

  lemma WindowParses(s: Snapshot)
    requires s.Window? || s.Presentation?
    ensures (if s.Window? then ReadWindow(Body(s)) else ReadPresentation(Body(s)))
         == if Sound(s) then Some(s) else None
  {
    var v := Body(s);
    if s.Window? {
      SizeRead(s.requestedSize);
      assert Get(v, "title") == OptStringJson(s.windowTitle);
      assert Get(v, "requested_size") == SizeJson(s.requestedSize);
    } else {
      SizeRead(s.preferredSize);
      assert Get(v, "preferred_size") == SizeJson(s.preferredSize) && Get(v, "scale") == NumberJson(s.scale);
    }
  }

  lemma HasRequired(s: Snapshot)
    requires !s.Withdraw?
    ensures Body(s).Obj? && Required(DomainOf(s)) <= Body(s).fields.Keys
  {
  }

  /** The parser accepts exactly the bodies of sound snapshots, and gives their normal form. */
  lemma BodyParses(s: Snapshot)
    requires TimesFinite(s)
    ensures ParseSnapshot(DomainOf(s), Body(s)) == if Sound(s) then Some(Normal(s)) else None
  {
    if !s.Withdraw? {
      HasRequired(s);
    }
    match s
    case Media(_, _, _, _, _, _, _) => MediaParses(s);
    case Navigation(_, _, _, _, _, _) => NavigationParses(s);
    case Scroll(_, _, _) => ScrollParses(s);
    case Window(_, _, _) => WindowParses(s);
    case Presentation(_, _, _, _) => WindowParses(s);
    case _ =>
  }

  /** Whatever JSON it is given, the parser returns only canonical snapshots. */
  lemma ParseIsCanonical(d: Domain, v: Json)
    ensures ParseSnapshot(d, v).Some? ==> Canonical(ParseSnapshot(d, v).value)
  {
    CapsAreKnown(d, Get(v, "capabilities"));
    AxisIsValid(Get(v, "x"));
    AxisIsValid(Get(v, "y"));
  }

  /** A snapshot is canonical exactly when it is sound and its own normal form. */
  lemma NormalIsFixed(s: Snapshot)
    ensures Canonical(s) <==> Sound(s) && Normal(s) == s
    ensures Sound(s) ==> Canonical(Normal(s))
  {
    match s
    case Media(_, _, _, _, _, _, caps) => KnownStay(MediaDomain, caps);
    case Navigation(_, _, _, _, _, caps) => KnownStay(NavigationDomain, caps);
    case Scroll(_, _, caps) => KnownStay(ScrollDomain, caps);
    case _ =>
  }

  /** Parsing the body of a parsed snapshot gives that snapshot back. */
  lemma ParseIsIdempotent(d: Domain, v: Json)
    requires ParseSnapshot(d, v).Some?
    ensures ParseSnapshot(d, Body(ParseSnapshot(d, v).value)) == ParseSnapshot(d, v)
  {
    var s := ParseSnapshot(d, v).value;
    ParseIsCanonical(d, v);
    NormalIsFixed(s);
    BodyParses(s);
  }

  /** A body missing a required key is malformed even where null is allowed, and keys that
      are not required change nothing. */
  lemma OnlyRequiredKeysCount(d: Domain, a: map<string, Json>, b: map<string, Json>)
    requires forall key | key in Required(d) :: (key in a <==> key in b) && (key in a ==> a[key] == b[key])
    ensures ParseSnapshot(d, Obj(a)) == ParseSnapshot(d, Obj(b))
    ensures !(Required(d) <= a.Keys) ==> ParseSnapshot(d, Obj(a)) == None
  {
    forall key | key in Required(d)
      ensures Get(Obj(a), key) == Get(Obj(b), key)
    {
    }
    if Required(d) <= a.Keys {
      SameReading(d, Obj(a), Obj(b));
    }
  }

  lemma SameReading(d: Domain, v: Json, w: Json)
    requires v.Obj? && w.Obj? && Required(d) <= v.fields.Keys && Required(d) <= w.fields.Keys
    requires forall key | key in Required(d) :: Get(v, key) == Get(w, key)
    ensures ParseSnapshot(d, v) == ParseSnapshot(d, w)
  {
    match d
    case MediaDomain =>
      assert {"status", "position", "rate", "duration"} <= Required(d);
      assert {"title", "artwork", "capabilities"} <= Required(d);
    case NavigationDomain =>
      assert {"url", "title", "can_go_back", "can_go_forward", "loading", "capabilities"} <= Required(d);
    case CursorDomain => assert "shape" in Required(d);
    case ScrollDomain => assert {"x", "y", "capabilities"} <= Required(d);
    case WindowDomain => assert {"title", "requested_size", "ready"} <= Required(d);
    case PresentationDomain => assert {"visible", "preferred_size", "scale", "focused"} <= Required(d);
  }

  // ---- Bodies, key by key ----

  /** Each field of a parsed snapshot comes from the key of its own name. */
  lemma ParsedFields(d: Domain, v: Json)
    requires ParseSnapshot(d, v).Some? && !v.Null?
    ensures match ParseSnapshot(d, v).value
            case Media(status, position, rate, duration, title, artwork, caps) =>
              && (Get(v, "status").s in STATUSES ==> Str(status) == Get(v, "status"))
              && (Get(v, "status").s !in STATUSES ==> status == "unknown")
              && ReadOptNumber(Get(v, "position")) == Some(position) && ReadNumber(Get(v, "rate")) == Some(rate)
              && ReadOptNumber(Get(v, "duration")) == Some(duration) && ReadOptString(Get(v, "title")) == Some(title)
              && ReadArtwork(Get(v, "artwork")) == Some(artwork)
              && ReadCaps(MediaDomain, Get(v, "capabilities")) == Some(caps)
            case Navigation(url, title, back, forward, loading, caps) =>
              && ReadOptString(Get(v, "url")) == Some(url) && ReadOptString(Get(v, "title")) == Some(title)
              && Get(v, "can_go_back") == Bool(back) && Get(v, "can_go_forward") == Bool(forward)
              && Get(v, "loading") == Bool(loading)
              && ReadCaps(NavigationDomain, Get(v, "capabilities")) == Some(caps)
            case Cursor(shape) =>
              && Get(v, "shape").Str?
              && shape == if Get(v, "shape").s in CURSORS then Get(v, "shape").s else "default"
            case Scroll(x, y, caps) =>
              && IsAxis(Get(v, "x"), x) && IsAxis(Get(v, "y"), y)
              && ReadCaps(ScrollDomain, Get(v, "capabilities")) == Some(caps)
            case Window(title, size, ready) =>
              && ReadOptString(Get(v, "title")) == Some(title) && IsSize(Get(v, "requested_size"), size)
              && Get(v, "ready") == Bool(ready)
            case Presentation(visible, size, scale, focused) =>
              && Get(v, "visible") == Bool(visible) && IsSize(Get(v, "preferred_size"), size)
              && ReadNumber(Get(v, "scale")) == Some(scale) && Get(v, "focused") == Bool(focused)
            case Withdraw(_) => false
  {
  }

  predicate IsSize(v: Json, size: Option<Size>) {
    match size
    case None => v.Null?
    case Some(z) => ReadNumber(Get(v, "width")) == Some(z.width) && ReadNumber(Get(v, "height")) == Some(z.height)
  }

  predicate IsAxis(v: Json, a: Axis) {
    && Get(v, "scrollable") == Bool(a.scrollable) && ReadNumber(Get(v, "content_length")) == Some(a.content)
    && ReadNumber(Get(v, "viewport_length")) == Some(a.viewport) && ReadNumber(Get(v, "position")) == Some(a.position)
  }

  /** The same value with its integers, down to `depth` levels of objects, written as
      floating-point numbers. */
  function Floats(v: Json, depth: nat): Json {
    match v
    case Int(n) => Float(n as real)
    case Obj(fields) =>
      if depth == 0 then v else Obj(map key | key in fields :: Floats(fields[key], depth - 1))
    case _ => v
  }

  lemma FloatsGet(v: Json, depth: nat, key: string)
    ensures Get(Floats(v, depth + 1), key) == Floats(Get(v, key), depth)
  {
  }

  lemma FloatsNumber(v: Json, depth: nat)
    ensures Number(Floats(v, depth)) == Number(v) && ReadNumber(Floats(v, depth)) == ReadNumber(v)
    ensures Floats(v, depth).Null? <==> v.Null?
    ensures Nonnegative(Floats(v, depth)) == Nonnegative(v) && Positive(Floats(v, depth)) == Positive(v)
    ensures ReadOptNumber(Floats(v, depth)) == ReadOptNumber(v)
    ensures (v.Str? || v.Bool? || v.Null?) ==> Floats(v, depth) == v
    ensures (Floats(v, depth).Str? || Floats(v, depth).Bool?) ==> Floats(v, depth) == v
  {
  }

  lemma FloatsSize(v: Json, depth: nat)
    ensures ReadSize(Floats(v, depth + 1)) == ReadSize(v)
  {
    FloatsNumber(v, depth + 1);
    FloatsGet(v, depth, "width");
    FloatsGet(v, depth, "height");
    FloatsNumber(Get(v, "width"), depth);
    FloatsNumber(Get(v, "height"), depth);
  }

  lemma FloatsAxis(v: Json, depth: nat)
    ensures ReadAxis(Floats(v, depth + 1)) == ReadAxis(v)
  {
    FloatsGet(v, depth, "content_length");
    FloatsGet(v, depth, "viewport_length");
    FloatsGet(v, depth, "position");
    FloatsGet(v, depth, "scrollable");
    FloatsNumber(Get(v, "content_length"), depth);
    FloatsNumber(Get(v, "viewport_length"), depth);
    FloatsNumber(Get(v, "position"), depth);
    FloatsNumber(Get(v, "scrollable"), depth);
  }

  lemma FloatsText(v: Json, depth: nat)
    ensures ReadOptString(Floats(v, depth)) == ReadOptString(v)
  {
  }

  lemma FloatsArtwork(v: Json, depth: nat)
    ensures ReadArtwork(Floats(v, depth + 1)) == ReadArtwork(v)
  {
    FloatsNumber(v, depth + 1);
    FloatsGet(v, depth, "kind");
    FloatsGet(v, depth, "url");
    FloatsGet(v, depth, "name");
    FloatsNumber(Get(v, "kind"), depth);
    FloatsNumber(Get(v, "url"), depth);
    FloatsNumber(Get(v, "name"), depth);
  }

  lemma FloatsCaps(d: Domain, v: Json, depth: nat)
    ensures ReadCaps(d, Floats(v, depth + 1)) == ReadCaps(d, v)
  {
    if v.Obj? {
      var kept, after := KeepFields(d, v.fields), KeepFields(d, Floats(v, depth + 1).fields);
      assert kept.Keys == after.Keys;
      forall name | name in kept
        ensures after[name].Bool? == kept[name].Bool? && (kept[name].Bool? ==> after[name] == kept[name])
      {
        FloatsNumber(kept[name], depth);
      }
      if AllFlags(kept) {
        assert Flags(after) == Flags(kept);
      }
    }
  }

  /** A scalar field reads the same. */
  lemma FloatsField(v: Json, key: string)
    ensures var w, u := Get(Floats(v, 2), key), Get(v, key);
            && Number(w) == Number(u) && ReadNumber(w) == ReadNumber(u) && ReadOptNumber(w) == ReadOptNumber(u)
            && Nonnegative(w) == Nonnegative(u) && Positive(w) == Positive(u) && w.Null? == u.Null?
            && ReadOptString(w) == ReadOptString(u)
            && (w.Str? || w.Bool? || u.Str? || u.Bool? ==> w == u)
  {
    FloatsGet(v, 1, key);
    FloatsNumber(Get(v, key), 1);
    FloatsText(Get(v, key), 1);
  }

  /** So does an object field. */
  lemma FloatsObject(v: Json, key: string, d: Domain)
    ensures var w, u := Get(Floats(v, 2), key), Get(v, key);
            && ReadCaps(d, w) == ReadCaps(d, u) && ReadArtwork(w) == ReadArtwork(u)
            && ReadAxis(w) == ReadAxis(u) && ReadSize(w) == ReadSize(u)
  {
    FloatsGet(v, 1, key);
    var u := Get(v, key);
    FloatsCaps(d, u, 0);
    FloatsArtwork(u, 0);
    FloatsAxis(u, 0);
    FloatsSize(u, 0);
  }

  lemma FloatsMedia(v: Json)
    ensures ReadMedia(Floats(v, 2)) == ReadMedia(v)
  {
    FloatsObject(v, "capabilities", MediaDomain);
    FloatsObject(v, "artwork", MediaDomain);
    FloatsField(v, "title");
    FloatsField(v, "position");
    FloatsField(v, "duration");
    FloatsField(v, "rate");
    FloatsField(v, "status");
  }

  lemma FloatsNavigation(v: Json)
    ensures ReadNavigation(Floats(v, 2)) == ReadNavigation(v)
  {
    FloatsObject(v, "capabilities", NavigationDomain);
    FloatsField(v, "url");
    FloatsField(v, "title");
    FloatsField(v, "can_go_back");
    FloatsField(v, "can_go_forward");
    FloatsField(v, "loading");
  }

  lemma FloatsScroll(v: Json)
    ensures ReadScroll(Floats(v, 2)) == ReadScroll(v)
  {
    FloatsObject(v, "capabilities", ScrollDomain);
    FloatsObject(v, "x", ScrollDomain);
    FloatsObject(v, "y", ScrollDomain);
  }

  lemma FloatsCursor(v: Json)
    ensures ReadCursor(Floats(v, 2)) == ReadCursor(v)
  {
    FloatsField(v, "shape");
  }

  lemma FloatsWindow(v: Json)
    ensures ReadWindow(Floats(v, 2)) == ReadWindow(v)
  {
    FloatsObject(v, "requested_size", WindowDomain);
    FloatsField(v, "title");
    FloatsField(v, "ready");
  }

  lemma FloatsPresentation(v: Json)
    ensures ReadPresentation(Floats(v, 2)) == ReadPresentation(v)
  {
    FloatsObject(v, "preferred_size", PresentationDomain);
    FloatsField(v, "scale");
    FloatsField(v, "visible");
    FloatsField(v, "focused");
  }

  /** A number written as an integer reads as the same number written with a point, anywhere
      in a body. */
  lemma IntegersReadAsReals(d: Domain, v: Json)
    ensures ParseSnapshot(d, Floats(v, 2)) == ParseSnapshot(d, v)
  {
    match d
    case MediaDomain => FloatsMedia(v);
    case NavigationDomain => FloatsNavigation(v);
    case CursorDomain => FloatsCursor(v);
    case ScrollDomain => FloatsScroll(v);
    case WindowDomain => FloatsWindow(v);
    case PresentationDomain => FloatsPresentation(v);
    assert v.Obj? ==> Floats(v, 2).fields.Keys == v.fields.Keys;
  }

  /** An artwork of a kind this version does not know is read as none; one without a kind is
      malformed. */
  lemma UnknownArtwork(v: Json)
    ensures !v.Null? && !Get(v, "kind").Str? ==> ReadArtwork(v) == None
    ensures Get(v, "kind").Str? && Get(v, "kind").s !in {"url", "icon"} ==> ReadArtwork(v) == Some(None)
  {
  }
}
