/** Retagging a record: the note and its paired event are rewritten in turn, and
    the index entry is rebuilt from both. */
module Retag {
  import opened Wrappers
  import opened Text
  import opened NoteFormat

  /** `meta` stands for subject, tags and confidence, `rest` for what is only copied. */
  datatype MemoryEvent = MemoryEvent(
    schemaVersion: nat,
    id: string,
    storeId: string,
    storeName: string,
    createdAt: string,
    agentId: string,
    hostId: string,
    scope: string,
    projectId: Option<string>,
    validFrom: Option<string>,
    validTo: Option<string>,
    supersedes: seq<string>,
    kind: Option<Kind>,
    classified: Option<Classified>,
    audience: seq<string>,
    body: string,
    meta: string,
    rest: string)

  /** The event side: JSON, and the path and source rules on what `rest` holds. */
  datatype EventCodec = EventCodec(
    toJson: MemoryEvent -> string,
    fromJson: string -> Option<MemoryEvent>,
    restOk: string -> bool)
  {
    ghost predicate Sound() {
      forall e :: fromJson(toJson(e)) == Some(e)
    }
  }

  const EVENT_VERSION: nat := 1

  /** The rules an event must meet; which one failed does not matter here. */
  predicate EventValid(c: Codec, ec: EventCodec, e: MemoryEvent) {
    && e.schemaVersion == EVENT_VERSION
    && !IsBlank(e.id) && !IsBlank(e.storeId) && !IsBlank(e.storeName) && !IsBlank(e.createdAt)
    && !IsBlank(e.agentId) && !IsBlank(e.hostId) && !IsBlank(e.scope) && !IsBlank(e.body)
    && c.time(e.createdAt).Some?
    && CheckWindow(c, e.validFrom, e.validTo).None?
    && (e.classified.Some? ==> c.time(e.classified.value.at).Some?)
    && (e.scope == "agent-private" ==> e.audience != [])
    && ec.restOk(e.rest)
  }

  function NormalizeEvent(e: MemoryEvent): MemoryEvent {
    e.(validFrom := NormalizeBlank(e.validFrom), validTo := NormalizeBlank(e.validTo))
  }

  function ParseEvent(c: Codec, ec: EventCodec, input: string): Option<MemoryEvent> {
    match ec.fromJson(input)
    case None => None
    case Some(e) => if EventValid(c, ec, NormalizeEvent(e)) then Some(NormalizeEvent(e)) else None
  }

  function RenderEvent(c: Codec, ec: EventCodec, e: MemoryEvent): Option<string> {
    if EventValid(c, ec, e) then Some(ec.toJson(e)) else None
  }

  /** A note and, when there is one, the event at the path its id and creation
      time determine. */
  datatype Files = Files(note: string, event: Option<string>)

  datatype ClassifiedUpdate = Keep | Clear | Set(classified: Classified)

  datatype Input = Input(
    updateKind: bool, kind: Option<Kind>, scope: Option<string>, projectId: Option<string>, classified: ClassifiedUpdate)

  datatype RetagError = NoteFailed | EventFailed | InvalidKindContext

  /** `project-fact` needs a project to be filtered by. */
  predicate KindContextOk(kind: Option<Kind>, scope: string, projectId: Option<string>) {
    kind == Some(ProjectFact) ==> scope == "project" && projectId.Some?
  }

  function Updated(target: Option<Classified>, update: ClassifiedUpdate): Option<Classified> {
    match update case Keep => target case Clear => None case Set(c) => Some(c)
  }

  function Chosen(requested: Option<string>, current: string): string {
    if requested.Some? then requested.value else current
  }

  function EditNote(i: Input, fm: FrontMatter): FrontMatter {
    fm.(kind := if i.updateKind then i.kind else fm.kind,
        classified := if i.updateKind then Updated(fm.classified, i.classified) else fm.classified,
        scope := Chosen(i.scope, fm.scope),
        projectId := if i.projectId.Some? then i.projectId else fm.projectId)
  }

  function EditEvent(i: Input, e: MemoryEvent): MemoryEvent {
    e.(kind := if i.updateKind then i.kind else e.kind,
       classified := if i.updateKind then Updated(e.classified, i.classified) else e.classified,
       scope := Chosen(i.scope, e.scope),
       projectId := if i.projectId.Some? then i.projectId else e.projectId)
  }

  /** The error, if any, and the files left behind. */
  function Retagged(c: Codec, ec: EventCodec, f: Files, i: Input): (Option<RetagError>, Files) {
    match ParseNote(c, f.note)
    case Err(_) => (Some(NoteFailed), f)
    case Ok(n) =>
      var edited := n.(frontMatter := EditNote(i, n.frontMatter));
      var fm := edited.frontMatter;
      if !KindContextOk(fm.kind, fm.scope, fm.projectId) then (Some(InvalidKindContext), f)
      else
        match RenderNote(c, edited)
        case Err(_) => (Some(NoteFailed), f)
        case Ok(text) =>
          var half := f.(note := text);
          if f.event.None? then (None, half)
          else
            match ParseEvent(c, ec, f.event.value)
            case None => (Some(EventFailed), half)
            case Some(e) =>
              match RenderEvent(c, ec, EditEvent(i, e))
              case None => (Some(EventFailed), half)
              case Some(json) => (None, half.(event := Some(json)))
  }

  /** The record on disk. */
  class Record {
    const codec: Codec
    const eventCodec: EventCodec
    var note: string
    var event: Option<string>

    constructor (codec: Codec, eventCodec: EventCodec, note: string, event: Option<string>)
      ensures this.codec == codec && this.eventCodec == eventCodec && Contents() == Files(note, event)
    {
      this.codec := codec;
      this.eventCodec := eventCodec;
      this.note := note;
      this.event := event;
    }

    function Contents(): Files
      reads `note, `event
    {
      Files(note, event)
    }

    /** Edits the parsed note field by field, rewrites it, then does the same to
        the event; an error after the first rewrite leaves the note rewritten. */
    method Retag(i: Input) returns (error: Option<RetagError>)
      modifies `note, `event
      ensures (error, Contents()) == Retagged(codec, eventCodec, old(Contents()), i)
    {
      hide ParseNote, RenderNote, ParseEvent, RenderEvent;
      var parsed := ParseNote(codec, note);
      if parsed.Err? {
        return Some(NoteFailed);
      }
      var fm := parsed.value.frontMatter;
      if i.updateKind {
        fm := fm.(kind := i.kind);
        fm := fm.(classified := Updated(fm.classified, i.classified));
      }
      if i.scope.Some? {
        fm := fm.(scope := i.scope.value);
      }
      if i.projectId.Some? {
        fm := fm.(projectId := i.projectId);
      }
      if !KindContextOk(fm.kind, fm.scope, fm.projectId) {
        return Some(InvalidKindContext);
      }
      var rendered := RenderNote(codec, parsed.value.(frontMatter := fm));
      if rendered.Err? {
        return Some(NoteFailed);
      }
      note := rendered.value;
      if event.None? {
        return None;
      }
      var parsedEvent := ParseEvent(codec, eventCodec, event.value);
      if parsedEvent.None? {
        return Some(EventFailed);
      }
      var e := parsedEvent.value;
      if i.updateKind {
        e := e.(kind := i.kind);
        e := e.(classified := Updated(e.classified, i.classified));
      }
      if i.scope.Some? {
        e := e.(scope := i.scope.value);
      }
      if i.projectId.Some? {
        e := e.(projectId := i.projectId);
      }
      var renderedEvent := RenderEvent(codec, eventCodec, e);
      if renderedEvent.None? {
        return Some(EventFailed);
      }
      event := renderedEvent;
      return None;
    }
  }

  // ------------------------------------------------------------- the index entry

  datatype IndexEntry = IndexEntry(
    id: string,
    storeId: string,
    entryKind: EntryKind,
    scope: string,
    projectId: Option<string>,
    audience: seq<string>,
    meta: string,
    validFrom: Option<string>,
    validTo: Option<string>,
    supersedes: seq<string>,
    kind: Option<Kind>,
    classified: Option<Classified>,
    agentId: string,
    hostId: string,
    createdAt: string,
    body: string,
    paired: bool)

  function Or<T>(first: Option<T>, second: Option<T>): Option<T> {
    if first.Some? then first else second
  }

  /** An event that does not parse or carries another id is as good as none. */
  function PairedEvent(c: Codec, ec: EventCodec, f: Files, id: string): Option<MemoryEvent> {
    if f.event.None? then None
    else
      match ParseEvent(c, ec, f.event.value)
      case None => None
      case Some(e) => if e.id == id then Some(e) else None
  }

  function EntryFromNote(fm: FrontMatter, body: string, event: Option<MemoryEvent>): IndexEntry {
    match event
    case None =>
      IndexEntry(fm.id, fm.storeId, fm.entryKind, fm.scope, fm.projectId, fm.audience, fm.meta, fm.validFrom, fm.validTo,
                 fm.supersedes, fm.kind, fm.classified, fm.agentId, fm.hostId, fm.createdAt, body, false)
    case Some(e) =>
      IndexEntry(e.id, e.storeId, fm.entryKind, e.scope, e.projectId, e.audience, e.meta,
                 Or(e.validFrom, fm.validFrom), Or(e.validTo, fm.validTo),
                 if e.supersedes == [] then fm.supersedes else e.supersedes,
                 Or(e.kind, fm.kind), Or(e.classified, fm.classified),
                 e.agentId, e.hostId, e.createdAt, body, true)
  }

  /** The event says what the note says. */
  ghost predicate SaysTheSame(fm: FrontMatter, e: MemoryEvent) {
    && e.id == fm.id && e.storeId == fm.storeId && e.createdAt == fm.createdAt
    && e.agentId == fm.agentId && e.hostId == fm.hostId
    && e.scope == fm.scope && e.projectId == fm.projectId && e.audience == fm.audience && e.meta == fm.meta
    && e.validFrom == fm.validFrom && e.validTo == fm.validTo && e.supersedes == fm.supersedes
    && e.kind == fm.kind && e.classified == fm.classified
  }

  /** A note alone gives an entry that carries the note's own fields; an event
      that says the same changes only that the entry is paired; and an event's
      fields win, except that it cannot take away a window, supersession, kind
      or verdict that the note has. */
  lemma EntryFollowsSources(fm: FrontMatter, body: string, e: MemoryEvent)
    ensures var alone := EntryFromNote(fm, body, None);
            && alone.id == fm.id && alone.storeId == fm.storeId && alone.createdAt == fm.createdAt
            && alone.agentId == fm.agentId && alone.hostId == fm.hostId && alone.entryKind == fm.entryKind
            && alone.scope == fm.scope && alone.projectId == fm.projectId && alone.audience == fm.audience
            && alone.kind == fm.kind && alone.classified == fm.classified && alone.body == body && !alone.paired
    ensures var alone, both := EntryFromNote(fm, body, None), EntryFromNote(fm, body, Some(e));
            && (SaysTheSame(fm, e) ==> both == alone.(paired := true))
            && both.agentId == e.agentId && both.hostId == e.hostId && both.scope == e.scope && both.projectId == e.projectId
            && both.audience == e.audience && both.body == alone.body && both.paired
            && (alone.kind.Some? ==> both.kind.Some?) && (alone.classified.Some? ==> both.classified.Some?)
            && (alone.validFrom.Some? ==> both.validFrom.Some?) && (alone.validTo.Some? ==> both.validTo.Some?)
            && (alone.supersedes != [] ==> both.supersedes != [])
            && (e.kind.Some? ==> both.kind == e.kind) && (e.classified.Some? ==> both.classified == e.classified)
  {
  }

  /** What a rebuild makes of the files; unreadable notes yield no entry. */
  function Entry(c: Codec, ec: EventCodec, f: Files): Option<IndexEntry> {
    match ParseNote(c, f.note)
    case Err(_) => None
    case Ok(n) => Some(EntryFromNote(n.frontMatter, n.body, PairedEvent(c, ec, f, n.frontMatter.id)))
  }

  // ------------------------------------------------------------------- agreement

  lemma EventReadsBack(c: Codec, ec: EventCodec, e: MemoryEvent)
    requires c.Sound() && ec.Sound() && RenderEvent(c, ec, e).Some?
    ensures ParseEvent(c, ec, RenderEvent(c, ec, e).value) == Some(e)
  {
  }

  /** The front matter a retag of these files writes. */
  function EditedMatter(c: Codec, f: Files, i: Input): FrontMatter
    requires ParseNote(c, f.note).Ok?
  {
    EditNote(i, ParseNote(c, f.note).value.frontMatter)
  }

  /** A retag that got past the note leaves a note that reads back as edited
      exactly when the TOML it wrote holds no closing delimiter before an empty
      line. */
  lemma RetagReadsBackIff(c: Codec, ec: EventCodec, f: Files, i: Input)
    requires c.Sound()
    requires var error := Retagged(c, ec, f, i).0; error.None? || error.value.EventFailed?
    ensures ParseNote(c, f.note).Ok?
    ensures var n, g := ParseNote(c, f.note).value, Retagged(c, ec, f, i).1;
            ParseNote(c, g.note) == Ok(n.(frontMatter := EditNote(i, n.frontMatter))) <==>
            Splits(c, EditedMatter(c, f, i))
  {
    hide ParseNote, RenderNote, ParseEvent, RenderEvent, KindContextOk, Splits;
    var n := ParseNote(c, f.note).value;
    ParsedRoundTrips(c, f.note);
    RoundTripIff(c, n.(frontMatter := EditNote(i, n.frontMatter)));
  }

  /** The event reads back as edited. */
  lemma RetagReadsBackEvent(c: Codec, ec: EventCodec, f: Files, i: Input)
    requires c.Sound() && ec.Sound() && Retagged(c, ec, f, i).0.None?
    ensures var g := Retagged(c, ec, f, i).1;
            && (f.event.None? <==> g.event.None?)
            && (f.event.Some? ==>
                  && ParseEvent(c, ec, f.event.value).Some?
                  && ParseEvent(c, ec, g.event.value) == Some(EditEvent(i, ParseEvent(c, ec, f.event.value).value)))
  {
    hide ParseNote, RenderNote, ParseEvent, RenderEvent, KindContextOk;
    if f.event.Some? {
      EventReadsBack(c, ec, EditEvent(i, ParseEvent(c, ec, f.event.value).value));
    }
  }

  /** The entry a request asks for, given the one there was. */
  function Requested(i: Input, e: IndexEntry): IndexEntry {
    e.(kind := if i.updateKind then i.kind else e.kind,
       classified := if i.updateKind then Updated(e.classified, i.classified) else e.classified,
       scope := Chosen(i.scope, e.scope),
       projectId := if i.projectId.Some? then i.projectId else e.projectId)
  }

  /** After a retag succeeded, a rebuild yields the entry asked for exactly when
      the note reads back.  A kind-only retag thus keeps scope, project and
      audience, also where note and event disagree about them. */
  lemma RetagAgreesIff(c: Codec, ec: EventCodec, f: Files, i: Input)
    requires c.Sound() && ec.Sound() && Retagged(c, ec, f, i).0.None?
    ensures Entry(c, ec, f).Some? && ParseNote(c, f.note).Ok?
    ensures Entry(c, ec, Retagged(c, ec, f, i).1) == Some(Requested(i, Entry(c, ec, f).value)) <==>
            Splits(c, EditedMatter(c, f, i))
  {
    RetagReadsBackIff(c, ec, f, i);
    RetagReadsBackEvent(c, ec, f, i);
    RetagMovesBody(c, ec, f, i);
    hide ParseNote, RenderNote, ParseEvent, RenderEvent, KindContextOk, Retagged, Splits, Codec.Sound;
    var g := Retagged(c, ec, f, i).1;
    var n := ParseNote(c, f.note).value;
    var id := n.frontMatter.id;
    assert PairedEvent(c, ec, g, id) ==
           match PairedEvent(c, ec, f, id) case None => None case Some(e) => Some(EditEvent(i, e));
    hide PairedEvent;
    match PairedEvent(c, ec, f, id)
    case None =>
    case Some(e) =>
  }

  lemma RetagMovesBody(c: Codec, ec: EventCodec, f: Files, i: Input)
    requires c.Sound() && Retagged(c, ec, f, i).0.None?
    ensures ParseNote(c, f.note).Ok?
    ensures var n, m := ParseNote(c, f.note), ParseNote(c, Retagged(c, ec, f, i).1.note);
            !Splits(c, EditedMatter(c, f, i)) && m.Ok? ==> |m.value.body| > |n.value.body|
  {
    hide ParseNote, RenderNote, ParseEvent, RenderEvent, KindContextOk, Splits;
    var n := ParseNote(c, f.note).value;
    ParsedRoundTrips(c, f.note);
    if !Splits(c, EditedMatter(c, f, i)) {
      DelimiterMovesBody(c, n.(frontMatter := EditNote(i, n.frontMatter)));
    }
  }

  /** What a rebuild serves after a retag that failed.  Before the note was
      rewritten nothing changed.  After it, the entry of an unpaired note is the
      one asked for; a paired event still decides about scope, project and any
      kind or provenance it carries, and the note fills in only what it lacks. */
  lemma FailedRetagServes(c: Codec, ec: EventCodec, f: Files, i: Input)
    requires c.Sound() && Retagged(c, ec, f, i).0.Some?
    ensures var (error, g) := Retagged(c, ec, f, i);
            if !error.value.EventFailed? then g == f
            else
              && Entry(c, ec, f).Some? && ParseNote(c, f.note).Ok? && g.event == f.event
              && (Splits(c, EditedMatter(c, f, i)) ==>
                    var before, n := Entry(c, ec, f).value, ParseNote(c, f.note).value;
                    var fm := EditNote(i, n.frontMatter);
                    Entry(c, ec, g) ==
                    match PairedEvent(c, ec, f, n.frontMatter.id)
                    case None => Some(Requested(i, before))
                    case Some(e) => Some(before.(kind := Or(e.kind, fm.kind), classified := Or(e.classified, fm.classified))))
  {
    hide Retagged;
    var (error, g) := Retagged(c, ec, f, i);
    if error.value.EventFailed? {
      hide ParseNote, Splits, PairedEvent;
      RetagReadsBackIff(c, ec, f, i);
      FailedKeepsEvent(c, ec, f, i);
    } else {
      FailedBeforeWrite(c, ec, f, i);
    }
  }

  lemma FailedBeforeWrite(c: Codec, ec: EventCodec, f: Files, i: Input)
    requires var error := Retagged(c, ec, f, i).0; error.Some? && !error.value.EventFailed?
    ensures Retagged(c, ec, f, i).1 == f
  {
    hide ParseNote, RenderNote, ParseEvent, RenderEvent, KindContextOk;
  }

  lemma FailedKeepsEvent(c: Codec, ec: EventCodec, f: Files, i: Input)
    requires Retagged(c, ec, f, i).0.Some?
    ensures Retagged(c, ec, f, i).1.event == f.event
    ensures forall id :: PairedEvent(c, ec, Retagged(c, ec, f, i).1, id) == PairedEvent(c, ec, f, id)
  {
    hide ParseNote, RenderNote, ParseEvent, RenderEvent, KindContextOk;
  }

  function After(c: Codec, ec: EventCodec, f: Files, inputs: seq<Input>): Files {
    if inputs == [] then f
    else Retagged(c, ec, After(c, ec, f, inputs[..|inputs| - 1]), inputs[|inputs| - 1]).1
  }

  predicate Completed(c: Codec, ec: EventCodec, f: Files, inputs: seq<Input>) {
    inputs == [] ||
    (&& Completed(c, ec, f, inputs[..|inputs| - 1])
     && Retagged(c, ec, After(c, ec, f, inputs[..|inputs| - 1]), inputs[|inputs| - 1]).0.None?)
  }

  function AllRequested(inputs: seq<Input>, e: IndexEntry): IndexEntry {
    if inputs == [] then e else Requested(inputs[|inputs| - 1], AllRequested(inputs[..|inputs| - 1], e))
  }

  function EditAll(inputs: seq<Input>, fm: FrontMatter): FrontMatter {
    if inputs == [] then fm else EditNote(inputs[|inputs| - 1], EditAll(inputs[..|inputs| - 1], fm))
  }

  /** Every front matter written along the way prints without a closing
      delimiter before an empty line. */
  predicate SplitsAlong(c: Codec, inputs: seq<Input>, fm: FrontMatter) {
    inputs == [] || (SplitsAlong(c, inputs[..|inputs| - 1], fm) && Splits(c, EditAll(inputs, fm)))
  }

  /** The note is what the requests made of it, its body unchanged, after each
      of the retags. */
  predicate ReadsBackAlong(c: Codec, ec: EventCodec, f: Files, inputs: seq<Input>, n: MarkdownNote) {
    inputs == [] ||
    (&& ReadsBackAlong(c, ec, f, inputs[..|inputs| - 1], n)
     && ParseNote(c, After(c, ec, f, inputs).note) == Ok(n.(frontMatter := EditAll(inputs, n.frontMatter))))
  }

  /** Over any sequence of completed retags the note keeps reading back, with its
      id and body, exactly when none of the front matters written holds a
      closing delimiter. */
  lemma {:induction false} RetagsReadBackIff(c: Codec, ec: EventCodec, f: Files, inputs: seq<Input>)
    requires c.Sound() && Completed(c, ec, f, inputs) && ParseNote(c, f.note).Ok?
    ensures var n := ParseNote(c, f.note).value;
            && (ReadsBackAlong(c, ec, f, inputs, n) <==> SplitsAlong(c, inputs, n.frontMatter))
            && EditAll(inputs, n.frontMatter).id == n.frontMatter.id
            && (SplitsAlong(c, inputs, n.frontMatter) ==>
                  ParseNote(c, After(c, ec, f, inputs).note) == Ok(n.(frontMatter := EditAll(inputs, n.frontMatter))))
    decreases |inputs|
  {
    hide ParseNote, Retagged, Splits;
    if inputs != [] {
      var k := |inputs| - 1;
      RetagsReadBackIff(c, ec, f, inputs[..k]);
      RetagReadsBackIff(c, ec, After(c, ec, f, inputs[..k]), inputs[k]);
    }
  }

  /** Over any sequence of completed retags that keeps reading back, the rebuilt
      entry is the first one with the requests applied in order. */
  lemma {:induction false} RetagsAgree(c: Codec, ec: EventCodec, f: Files, inputs: seq<Input>)
    requires c.Sound() && ec.Sound() && Completed(c, ec, f, inputs)
    requires ParseNote(c, f.note).Ok? && SplitsAlong(c, inputs, ParseNote(c, f.note).value.frontMatter)
    ensures Entry(c, ec, After(c, ec, f, inputs)) == Some(AllRequested(inputs, Entry(c, ec, f).value))
    decreases |inputs|
  {
    hide ParseNote, Retagged, Splits, EntryFromNote, Requested, PairedEvent;
    if inputs != [] {
      var k := |inputs| - 1;
      RetagsAgree(c, ec, f, inputs[..k]);
      RetagsReadBackIff(c, ec, f, inputs[..k]);
      RetagAgreesIff(c, ec, After(c, ec, f, inputs[..k]), inputs[k]);
    }
  }

  /** Requests never touch identity, privacy or text, and the last kind asked
      for wins. */
  lemma {:induction false} RequestsKeep(inputs: seq<Input>, e: IndexEntry)
    ensures var r := AllRequested(inputs, e);
            && r == e.(kind := r.kind, classified := r.classified, scope := r.scope, projectId := r.projectId)
            && (forall k | 0 <= k < |inputs| && inputs[k].updateKind &&
                           (forall j | k < j < |inputs| :: !inputs[j].updateKind) :: r.kind == inputs[k].kind)
            && ((forall k | 0 <= k < |inputs| :: inputs[k].scope.None? && inputs[k].projectId.None?) ==>
                  r.scope == e.scope && r.projectId == e.projectId)
    decreases |inputs|
  {
    if inputs != [] {
      RequestsKeep(inputs[..|inputs| - 1], e);
    }
  }

  // -------------------------------------------------------- what can be relied on

  /** A rebuilt entry names the note's own id, has a writer, a scope and a time,
      an audience when it is private, and readable times; a paired event is one
      of version 1; and a validity window taken from one side is in order. */
  lemma EntryIsSound(c: Codec, ec: EventCodec, f: Files)
    requires Entry(c, ec, f).Some?
    ensures ParseNote(c, f.note).Ok?
    ensures var fm, e := ParseNote(c, f.note).value.frontMatter, Entry(c, ec, f).value;
            && e.id == fm.id && !IsBlank(e.id) && !IsBlank(e.agentId) && !IsBlank(e.scope)
            && c.time(e.createdAt).Some?
            && (e.scope == "agent-private" ==> |e.audience| > 0)
            && (e.classified.Some? ==> c.time(e.classified.value.at).Some?)
            && (e.validFrom.Some? ==> c.time(e.validFrom.value).Some?)
            && (e.validTo.Some? ==> c.time(e.validTo.value).Some?)
            && (e.paired <==> PairedEvent(c, ec, f, fm.id).Some?)
            && (e.paired ==> PairedEvent(c, ec, f, fm.id).value.schemaVersion == 1)
            && (!e.paired && e.validFrom.Some? && e.validTo.Some? ==>
                  c.time(e.validFrom.value).value < c.time(e.validTo.value).value)
            && (e.paired && PairedEvent(c, ec, f, fm.id).value.validFrom.Some? && PairedEvent(c, ec, f, fm.id).value.validTo.Some? ==>
                  c.time(e.validFrom.value).value < c.time(e.validTo.value).value)
  {
    NoteIsSound(c, f.note);
    hide ParseNote, IsBlank;
    var fm := ParseNote(c, f.note).value.frontMatter;
    if f.event.Some? { EventIsSound(c, ec, f.event.value); }
    hide ParseEvent;
  }

  lemma NoteIsSound(c: Codec, note: string)
    ensures ParseNote(c, note).Ok? ==>
              var fm := ParseNote(c, note).value.frontMatter;
              && !IsBlank(fm.id) && !IsBlank(fm.agentId) && !IsBlank(fm.scope) && c.time(fm.createdAt).Some?
              && (fm.scope == "agent-private" ==> |fm.audience| > 0)
              && (fm.classified.Some? ==> c.time(fm.classified.value.at).Some?)
              && WindowOk(c, fm.validFrom, fm.validTo)
  {
    if ParseNote(c, note).Ok? {
      var toml := ParsedIsValid(c, note);
      var fm := ParseNote(c, note).value.frontMatter;
      var all := [fm.id, fm.storeId, fm.storeName, fm.createdAt, fm.agentId, fm.hostId, fm.scope];
      assert all[0] in all && all[4] in all && all[6] in all;
      hide ParseNote, IsWhite;
    }
  }

  ghost predicate WindowOk(c: Codec, validFrom: Option<string>, validTo: Option<string>) {
    && (validFrom.Some? ==> c.time(validFrom.value).Some?)
    && (validTo.Some? ==> c.time(validTo.value).Some?)
    && (validFrom.Some? && validTo.Some? ==> c.time(validFrom.value).value < c.time(validTo.value).value)
  }

  lemma EventIsSound(c: Codec, ec: EventCodec, json: string)
    ensures ParseEvent(c, ec, json).Some? ==>
              var e := ParseEvent(c, ec, json).value;
              && e.schemaVersion == 1 && !IsBlank(e.id) && !IsBlank(e.agentId) && !IsBlank(e.scope) && c.time(e.createdAt).Some?
              && (e.scope == "agent-private" ==> |e.audience| > 0)
              && (e.classified.Some? ==> c.time(e.classified.value.at).Some?)
              && WindowOk(c, e.validFrom, e.validTo)
  {
    hide IsBlank;
  }

  /** A retag is refused for its kind exactly when it would leave a project fact
      without a project scope or a project; then it changes nothing. */
  lemma RefusedIff(c: Codec, ec: EventCodec, f: Files, i: Input)
    ensures Retagged(c, ec, f, i).0 == Some(InvalidKindContext) <==>
            && ParseNote(c, f.note).Ok?
            && EditedMatter(c, f, i).kind == Some(ProjectFact)
            && (EditedMatter(c, f, i).scope != "project" || EditedMatter(c, f, i).projectId.None?)
    ensures Retagged(c, ec, f, i).0 == Some(InvalidKindContext) ==> Retagged(c, ec, f, i).1 == f
  {
    hide ParseNote, RenderNote, ParseEvent, RenderEvent;
  }

  /** What each part of a request does to the entry, and that it does no more. */
  lemma RequestMeans(i: Input, e: IndexEntry)
    ensures var r := Requested(i, e);
            && r == e.(kind := r.kind, classified := r.classified, scope := r.scope, projectId := r.projectId)
            && (!i.updateKind ==> r.kind == e.kind && r.classified == e.classified)
            && (i.updateKind ==> r.kind == i.kind)
            && (i.updateKind && i.classified.Keep? ==> r.classified == e.classified)
            && (i.updateKind && i.classified.Clear? ==> r.classified == None)
            && (i.updateKind && i.classified.Set? ==> r.classified == Some(i.classified.classified))
            && (i.scope.None? ==> r.scope == e.scope) && (i.scope.Some? ==> i.scope == Some(r.scope))
            && (i.projectId.None? ==> r.projectId == e.projectId) && (i.projectId.Some? ==> r.projectId == i.projectId)
  {
  }

  /** Note and event each have their window in order, but an event that has only
      one end takes the other from the note.  The entry's window is out of order
      exactly when such a borrowed end does not fit. */
  lemma WindowOutOfOrderIff(c: Codec, fm: FrontMatter, body: string, e: MemoryEvent)
    requires WindowOk(c, fm.validFrom, fm.validTo) && WindowOk(c, e.validFrom, e.validTo)
    ensures var r := EntryFromNote(fm, body, Some(e));
            !WindowOk(c, r.validFrom, r.validTo) <==>
              || (e.validFrom.Some? && e.validTo.None? && fm.validTo.Some?
                  && c.time(e.validFrom.value).value >= c.time(fm.validTo.value).value)
              || (e.validFrom.None? && e.validTo.Some? && fm.validFrom.Some?
                  && c.time(fm.validFrom.value).value >= c.time(e.validTo.value).value)
    ensures WindowOk(c, EntryFromNote(fm, body, None).validFrom, EntryFromNote(fm, body, None).validTo)
  {
  }
}
