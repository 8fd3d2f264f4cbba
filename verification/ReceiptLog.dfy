/** The session's write-receipt log: one JSON line per receipt, appended under a
    blocking lock by whole-file replacement and read without a lock. */
module ReceiptLog {
  import opened Wrappers
  import opened Text

  /** A successful write; `rest` stands for the fields only copied here. */
  datatype Receipt = Receipt(noteId: string, rest: string)

  /** The JSON form of a receipt. */
  datatype Codec = Codec(encode: Receipt -> string, decode: string -> Option<Receipt>) {
    /** One-line JSON reads back, is not blank, and may be followed by '\r'. */
    ghost predicate Sound() {
      && (forall r :: decode(encode(r)) == Some(r))
      && (forall r :: '\n' !in encode(r) && !IsBlank(encode(r)))
      && (forall line :: decode(line + "\r") == decode(line))
    }
  }

  /** What `fs::read_to_string` can meet. */
  datatype File = Missing | Utf8(contents: string) | NotUtf8(bytes: seq<bv8>)

  // ------------------------------------------------------------------- parsing

  function ParseLines(codec: Codec, lines: seq<string>): Option<seq<Receipt>> {
    if lines == [] then Some([])
    else
      var n := |lines| - 1;
      var front := ParseLines(codec, lines[..n]);
      if front.None? || IsBlank(lines[n]) then front
      else
        match codec.decode(lines[n])
        case None => None
        case Some(r) => Some(front.value + [r])
  }

  /** Every line that is not blank must decode. */
  function Parse(codec: Codec, contents: string): Option<seq<Receipt>> {
    ParseLines(codec, Lines(contents))
  }

  /** What a reader gets; a missing file is an empty log. */
  function Load(codec: Codec, file: File): Option<seq<Receipt>> {
    match file
    case Missing => Some([])
    case Utf8(contents) => Parse(codec, contents)
    case NotUtf8(_) => None
  }

  function Terminated(contents: string): string {
    if EndsLine(contents) then contents else contents + "\n"
  }

  function Appended(codec: Codec, contents: string, receipt: Receipt): string {
    Terminated(contents) + codec.encode(receipt) + "\n"
  }

  /** The file after one append, or unchanged when it does not parse. */
  function AfterAppend(codec: Codec, file: File, receipt: Receipt): File {
    if Load(codec, file).None? then file
    else Utf8(Appended(codec, if file.Missing? then "" else file.contents, receipt))
  }

  function Both(a: Option<seq<Receipt>>, b: Option<seq<Receipt>>): Option<seq<Receipt>> {
    if a.None? || b.None? then None else Some(a.value + b.value)
  }

  lemma {:induction false} ParseLinesAppend(codec: Codec, a: seq<string>, b: seq<string>)
    ensures ParseLines(codec, a + b) == Both(ParseLines(codec, a), ParseLines(codec, b))
    decreases |b|
  {
    var pa := ParseLines(codec, a);
    if b == [] {
      assert a + b == a;
      assert pa.Some? ==> pa.value + [] == pa.value;
    } else {
      var n := |b| - 1;
      assert (a + b)[..|a + b| - 1] == a + b[..n];
      ParseLinesAppend(codec, a, b[..n]);
      var pb, r := ParseLines(codec, b[..n]), codec.decode(b[n]);
      if pa.Some? && pb.Some? && r.Some? {
        assert pa.value + (pb.value + [r.value]) == pa.value + pb.value + [r.value];
      }
    }
  }

  lemma StripCrTolerated(codec: Codec, line: string)
    requires codec.Sound()
    ensures ParseLines(codec, [StripCr(line)]) == ParseLines(codec, [line])
  {
    var s := StripCr(line);
    assert [s][..0] == [] && [line][..0] == [];
    if s != line {
      assert line == s + "\r";
      assert forall c | c in s :: c in line;
      assert forall c | c in line :: c in s || c == '\r';
    }
  }

  lemma LastLineParses(codec: Codec, line: string)
    requires codec.Sound() && '\n' !in line && line != ""
    ensures Parse(codec, line + "\n") == Parse(codec, line)
  {
    LinesOfOne(line);
    StripCrTolerated(codec, line);
  }

  lemma FirstLineParses(codec: Codec, s: string, k: nat)
    requires k < |s| && s[k] == '\n' && '\n' !in s[..k]
    ensures Parse(codec, s) == Both(ParseLines(codec, [StripCr(s[..k])]), Parse(codec, s[k + 1..]))
  {
    LinesStep(s, k);
    ParseLinesAppend(codec, [StripCr(s[..k])], Lines(s[k + 1..]));
  }

  /** Ending an unterminated last line does not change what the log means. */
  lemma {:induction false} TerminatedParses(codec: Codec, contents: string)
    requires codec.Sound()
    ensures EndsLine(Terminated(contents))
    ensures Parse(codec, Terminated(contents)) == Parse(codec, contents)
    decreases |contents|
  {
    hide Parse, ParseLines, Codec.Sound;
    if !EndsLine(contents) {
      var k := IndexOf(contents, '\n');
      if k == |contents| {
        assert contents[..k] == contents;
        LastLineParses(codec, contents);
      } else {
        var more := contents + "\n";
        TerminatedParses(codec, contents[k + 1..]);
        assert more[..k] == contents[..k] && more[k + 1..] == contents[k + 1..] + "\n";
        FirstLineParses(codec, contents, k);
        FirstLineParses(codec, more, k);
      }
    }
  }

  lemma LinesStep(s: string, k: nat)
    requires k < |s| && s[k] == '\n' && '\n' !in s[..k]
    ensures Lines(s) == [StripCr(s[..k])] + Lines(s[k + 1..])
  {
  }

  lemma EncodedParses(codec: Codec, receipt: Receipt)
    requires codec.Sound()
    ensures Parse(codec, codec.encode(receipt) + "\n") == Some([receipt])
  {
    var line := codec.encode(receipt);
    LinesOfOne(line);
    StripCrTolerated(codec, line);
    assert [line][..0] == [] && [] + [receipt] == [receipt];
  }

  /** An append to a log that parses adds exactly its receipt at the end and
      keeps every earlier byte, also when the last line lacked its newline. */
  lemma AppendExact(codec: Codec, contents: string, receipt: Receipt)
    requires codec.Sound() && Parse(codec, contents).Some?
    ensures Parse(codec, Appended(codec, contents, receipt)) == Some(Parse(codec, contents).value + [receipt])
    ensures contents <= Appended(codec, contents, receipt)
  {
    var head, line := Terminated(contents), codec.encode(receipt) + "\n";
    assert Appended(codec, contents, receipt) == head + line;
    TerminatedParses(codec, contents);
    LinesAppend(head, line);
    ParseLinesAppend(codec, Lines(head), Lines(line));
    EncodedParses(codec, receipt);
  }

  /** One process's append, between taking and dropping the lock. */
  class LogFile {
    const codec: Codec
    var file: File

    constructor (codec: Codec, file: File)
      ensures this.codec == codec && this.file == file
    {
      this.codec := codec;
      this.file := file;
    }

    /** `writeFails` is whether the replacement of the file will fail. */
    method Append(receipt: Receipt, writeFails: bool) returns (ok: bool)
      requires codec.Sound()
      modifies `file
      ensures ok <==> Load(codec, old(file)).Some? && !writeFails
      ensures ok ==> file == AfterAppend(codec, old(file), receipt)
      ensures ok ==> Load(codec, file) == Some(Load(codec, old(file)).value + [receipt])
      ensures !ok ==> file == old(file)
    {
      var existing := if file.Missing? then "" else if file.Utf8? then file.contents else "";
      if file.NotUtf8? || Parse(codec, existing).None? {
        return false;
      }
      AppendExact(codec, existing, receipt);
      var contents := existing;
      if contents != [] && contents[|contents| - 1] != '\n' {
        contents := contents + "\n";
      }
      contents := contents + codec.encode(receipt);
      contents := contents + "\n";
      if writeFails {
        return false;
      }
      file := Utf8(contents);
      return true;
    }
  }

  // ------------------------------------------------------- concurrent appenders

  type CallId = nat

  datatype Phase =
    | Waiting
    | Locked
    | Checked(seen: File)
    | Published
    | Returned
    | Refused
    | Died

  datatype Call = Call(receipt: Receipt, phase: Phase)

  /** `log` and `reads` are history: the calls whose replacement took place, and
      what the lock-free readers got, both in order. */
  datatype System = System(
    file: File,
    lock: Option<CallId>,
    calls: map<CallId, Call>,
    log: seq<CallId>,
    observed: seq<Option<seq<Receipt>>>)

  datatype Event =
    | Start(id: CallId, receipt: Receipt)
    | Lock(id: CallId)
    | Check(id: CallId)
    | Publish(id: CallId)
    | FailPublish(id: CallId)
    | Return(id: CallId)
    | Crash(id: CallId)
    | Read

  function Initial(file: File): System {
    System(file, None, map[], [], [])
  }

  function Move(s: System, id: CallId, phase: Phase): System
    requires id in s.calls
  {
    s.(calls := s.calls[id := s.calls[id].(phase := phase)])
  }

  function Unlock(s: System, id: CallId): System {
    if s.lock == Some(id) then s.(lock := None) else s
  }

  function Exec(codec: Codec, s: System, e: Event): System {
    if e.Read? then s.(observed := s.observed + [Load(codec, s.file)])
    else if e.Start? then
      if e.id in s.calls then s else s.(calls := s.calls[e.id := Call(e.receipt, Waiting)])
    else if e.id !in s.calls then s
    else
      var c := s.calls[e.id];
      match e
      case Lock(id) => if c.phase.Waiting? && s.lock.None? then Move(s.(lock := Some(id)), id, Locked) else s
      case Check(id) =>
        if !c.phase.Locked? then s
        else if Load(codec, s.file).None? then Move(Unlock(s, id), id, Refused)
        else Move(s, id, Checked(s.file))
      case Publish(id) =>
        if c.phase.Checked? then
          Move(s.(file := AfterAppend(codec, c.phase.seen, c.receipt), log := s.log + [id]), id, Published)
        else s
      case FailPublish(id) => if c.phase.Checked? then Move(Unlock(s, id), id, Refused) else s
      case Return(id) => if c.phase.Published? then Move(Unlock(s, id), id, Returned) else s
      case Crash(id) =>
        if c.phase.Returned? || c.phase.Refused? || c.phase.Died? then s else Move(Unlock(s, id), id, Died)
      case Start(_, _) => s
      case Read => s
  }

  function Run(codec: Codec, file: File, schedule: seq<Event>): System {
    if schedule == [] then Initial(file)
    else Exec(codec, Run(codec, file, schedule[..|schedule| - 1]), schedule[|schedule| - 1])
  }

  function Receipts(calls: map<CallId, Call>, log: seq<CallId>): seq<Receipt>
    requires forall id | id in log :: id in calls
  {
    if log == [] then [] else Receipts(calls, log[..|log| - 1]) + [calls[log[|log| - 1]].receipt]
  }

  predicate Inside(phase: Phase) {
    phase.Locked? || phase.Checked? || phase.Published?
  }

  ghost predicate CallOk(codec: Codec, s: System, id: CallId, c: Call) {
    && (Inside(c.phase) ==> s.lock == Some(id))
    && (c.phase.Checked? ==> c.phase.seen == s.file && Load(codec, s.file).Some?)
    && (c.phase.Published? || c.phase.Returned? ==> id in s.log)
    && (c.phase.Waiting? || c.phase.Locked? || c.phase.Checked? || c.phase.Refused? ==> id !in s.log)
  }

  function Bytes(file: File): string {
    if file.Utf8? then file.contents else ""
  }

  /** The file against the initial one: still the same when that was corrupt,
      otherwise its receipts followed by those of the log. */
  ghost predicate FileOk(codec: Codec, initial: File, s: System)
    requires forall id | id in s.log :: id in s.calls
  {
    match Load(codec, initial)
    case None => s.file == initial && s.log == []
    case Some(before) =>
      && Load(codec, s.file) == Some(before + Receipts(s.calls, s.log))
      && Bytes(initial) <= Bytes(s.file)
  }

  ghost predicate ReadsOk(codec: Codec, s: System) {
    Load(codec, s.file).Some? ==>
      && (forall k | 0 <= k < |s.observed| :: s.observed[k].Some? && s.observed[k].value <= Load(codec, s.file).value)
      && (forall j, k | 0 <= j < k < |s.observed| :: s.observed[j].value <= s.observed[k].value)
  }

  ghost predicate CallsOk(codec: Codec, s: System) {
    forall id | id in s.calls :: CallOk(codec, s, id, s.calls[id])
  }

  ghost predicate Inv(codec: Codec, initial: File, s: System) {
    && CallsOk(codec, s)
    && (forall id | id in s.log :: id in s.calls)
    && (forall i, j | 0 <= i < j < |s.log| :: s.log[i] != s.log[j])
    && FileOk(codec, initial, s)
    && ReadsOk(codec, s)
  }

  lemma {:induction false} ReceiptsFrame(a: map<CallId, Call>, b: map<CallId, Call>, log: seq<CallId>)
    requires forall id | id in log :: id in a && id in b && a[id].receipt == b[id].receipt
    ensures Receipts(a, log) == Receipts(b, log)
    decreases |log|
  {
    if log != [] { ReceiptsFrame(a, b, log[..|log| - 1]); }
  }

  lemma PublishStep(codec: Codec, s: System, id: CallId)
    requires CallsOk(codec, s) && id in s.calls && s.calls[id].phase.Checked?
    ensures var t := Exec(codec, s, Publish(id));
            && Load(codec, s.file).Some? && id !in s.log
            && t.file == AfterAppend(codec, s.file, s.calls[id].receipt)
            && t.log == s.log + [id] && t.observed == s.observed
            && (forall other | other in s.calls :: other in t.calls && t.calls[other].receipt == s.calls[other].receipt)
  {
  }

  lemma PublishKeepsCalls(codec: Codec, s: System, id: CallId)
    requires codec.Sound() && CallsOk(codec, s) && id in s.calls && s.calls[id].phase.Checked?
    ensures CallsOk(codec, Exec(codec, s, Publish(id)))
  {
  }

  lemma PublishKeepsInv(codec: Codec, initial: File, s: System, id: CallId)
    requires codec.Sound() && Inv(codec, initial, s) && id in s.calls && s.calls[id].phase.Checked?
    ensures Inv(codec, initial, Exec(codec, s, Publish(id)))
  {
    var t := Exec(codec, s, Publish(id));
    hide Exec, Load, AfterAppend, Codec.Sound, Bytes, CallsOk;
    PublishStep(codec, s, id);
    PublishKeepsCalls(codec, s, id);
    LoadAfterAppend(codec, s.file, s.calls[id].receipt);
    ReceiptsFrame(s.calls, t.calls, s.log);
    assert t.log[..|s.log|] == s.log;
    var before: seq<Receipt> := Load(codec, initial).value;
    assert before + Receipts(t.calls, t.log) == before + Receipts(s.calls, s.log) + [s.calls[id].receipt];
    assert Bytes(initial) <= Bytes(s.file) <= Bytes(t.file);
  }

  lemma LoadAfterAppend(codec: Codec, file: File, receipt: Receipt)
    requires codec.Sound() && Load(codec, file).Some?
    ensures Load(codec, AfterAppend(codec, file, receipt)) == Some(Load(codec, file).value + [receipt])
    ensures Bytes(file) <= Bytes(AfterAppend(codec, file, receipt))
  {
    hide Parse, Appended, Codec.Sound;
    EmptyParses(codec);
    AppendExact(codec, Bytes(file), receipt);
  }

  lemma EmptyParses(codec: Codec)
    ensures Parse(codec, "") == Some([])
  {
  }

  /** Steps other than a replacement and a read leave file and history alone. */
  lemma QuietStep(codec: Codec, s: System, e: Event)
    requires !e.Publish? && !e.Read?
    ensures var t := Exec(codec, s, e);
            && t.file == s.file && t.log == s.log && t.observed == s.observed
            && (forall id | id in s.calls :: id in t.calls && t.calls[id].receipt == s.calls[id].receipt)
  {
    hide Load, AfterAppend;
  }

  lemma QuietKeepsCalls(codec: Codec, s: System, e: Event)
    requires CallsOk(codec, s) && !e.Publish? && !e.Read?
    requires e.Start? ==> e.id in s.calls || e.id !in s.log
    ensures CallsOk(codec, Exec(codec, s, e))
  {
  }

  lemma QuietKeepsInv(codec: Codec, initial: File, s: System, e: Event)
    requires Inv(codec, initial, s) && !e.Publish? && !e.Read?
    ensures Inv(codec, initial, Exec(codec, s, e))
  {
    hide Load, Exec, CallOk;
    QuietStep(codec, s, e);
    QuietKeepsCalls(codec, s, e);
    ReceiptsFrame(s.calls, Exec(codec, s, e).calls, s.log);
  }

  lemma ReadKeepsInv(codec: Codec, initial: File, s: System)
    requires Inv(codec, initial, s)
    ensures Inv(codec, initial, s.(observed := s.observed + [Load(codec, s.file)]))
  {
  }

  lemma ExecKeepsInv(codec: Codec, initial: File, s: System, e: Event)
    requires codec.Sound() && Inv(codec, initial, s)
    ensures Inv(codec, initial, Exec(codec, s, e))
  {
    hide Load, Inv, Codec.Sound;
    if e.Read? {
      ReadKeepsInv(codec, initial, s);
    } else if e.Publish? {
      if e.id in s.calls && s.calls[e.id].phase.Checked? { PublishKeepsInv(codec, initial, s, e.id); }
    } else {
      QuietKeepsInv(codec, initial, s, e);
    }
  }

  lemma {:induction false} RunKeepsInv(codec: Codec, initial: File, schedule: seq<Event>)
    requires codec.Sound()
    ensures Inv(codec, initial, Run(codec, initial, schedule))
    decreases |schedule|
  {
    if schedule != [] {
      var n := |schedule| - 1;
      RunKeepsInv(codec, initial, schedule[..n]);
      ExecKeepsInv(codec, initial, Run(codec, initial, schedule[..n]), schedule[n]);
    } else {
      InitialInv(codec, initial);
    }
  }

  lemma InitialInv(codec: Codec, initial: File)
    ensures Inv(codec, initial, Initial(initial))
  {
    hide Load;
    if Load(codec, initial).Some? {
      var before: seq<Receipt> := Load(codec, initial).value;
      assert before + [] == before;
    }
  }

  /** A log that started valid stays valid through every interleaving and crash:
      it holds the earlier receipts and then exactly those of the appends that
      took place, once each, over a byte prefix that never changes.  An append
      that returned success is in it; one that was refused is not. */
  lemma LogStaysExact(codec: Codec, initial: File, schedule: seq<Event>)
    requires codec.Sound() && Load(codec, initial).Some?
    ensures var s := Run(codec, initial, schedule);
            && (forall id | id in s.log :: id in s.calls)
            && Load(codec, s.file) == Some(Load(codec, initial).value + Receipts(s.calls, s.log))
            && Bytes(initial) <= Bytes(s.file)
            && (forall i, j | 0 <= i < j < |s.log| :: s.log[i] != s.log[j])
            && (forall id | id in s.calls && s.calls[id].phase.Returned? :: id in s.log)
            && (forall id | id in s.calls && s.calls[id].phase.Refused? :: id !in s.log)
  {
    RunKeepsInv(codec, initial, schedule);
    var s := Run(codec, initial, schedule);
    assert forall id | id in s.calls :: CallOk(codec, s, id, s.calls[id]);
  }

  /** Lock-free readers never see a torn or shrinking log. */
  lemma ReadsExtend(codec: Codec, initial: File, schedule: seq<Event>)
    requires codec.Sound() && Load(codec, initial).Some?
    ensures var got := Run(codec, initial, schedule).observed;
            && (forall k | 0 <= k < |got| :: got[k].Some?)
            && (forall j, k | 0 <= j < k < |got| :: got[j].value <= got[k].value)
  {
    RunKeepsInv(codec, initial, schedule);
  }

  /** A corrupt log is never rewritten, and no append to it succeeds. */
  lemma CorruptNeverRewritten(codec: Codec, initial: File, schedule: seq<Event>)
    requires codec.Sound() && Load(codec, initial).None?
    ensures var s := Run(codec, initial, schedule);
            && s.file == initial
            && (forall id | id in s.calls :: !s.calls[id].phase.Published? && !s.calls[id].phase.Returned?)
  {
    RunKeepsInv(codec, initial, schedule);
    var s := Run(codec, initial, schedule);
    assert forall id | id in s.calls :: CallOk(codec, s, id, s.calls[id]);
  }

  // ------------------------------------------------------------------ progress

  ghost predicate LockLive(s: System) {
    s.lock.Some? ==> s.lock.value in s.calls && Inside(s.calls[s.lock.value].phase)
  }

  lemma ExecKeepsLive(codec: Codec, s: System, e: Event)
    requires CallsOk(codec, s) && LockLive(s)
    ensures LockLive(Exec(codec, s, e))
  {
    hide Load, AfterAppend;
    assert e.Lock? || e.Check? || e.Publish? || e.FailPublish? || e.Return? || e.Crash? ==>
             (e.id in s.calls ==> CallOk(codec, s, e.id, s.calls[e.id]));
  }

  lemma {:induction false} RunKeepsLive(codec: Codec, file: File, schedule: seq<Event>)
    requires codec.Sound()
    ensures LockLive(Run(codec, file, schedule))
    decreases |schedule|
  {
    hide Exec, CallsOk;
    if schedule != [] {
      var n := |schedule| - 1;
      RunKeepsLive(codec, file, schedule[..n]);
      RunKeepsInv(codec, file, schedule[..n]);
      ExecKeepsLive(codec, Run(codec, file, schedule[..n]), schedule[n]);
    }
  }

  lemma RunNext(codec: Codec, file: File, schedule: seq<Event>, e: Event)
    ensures Run(codec, file, schedule + [e]) == Exec(codec, Run(codec, file, schedule), e)
  {
    hide Exec;
    assert (schedule + [e])[..|schedule|] == schedule;
  }

  /** All steps of one append, one after another. */
  function WholeAppend(id: CallId, receipt: Receipt): seq<Event> {
    [Start(id, receipt), Lock(id), Check(id), Publish(id), Return(id)]
  }

  /** The log is never stuck: in every reachable state a lock in use is released
      when its call dies, and an append that then runs by itself succeeds exactly
      when the log parses, adding its receipt at the end. */
  lemma NeverStuck(codec: Codec, file: File, schedule: seq<Event>, id: CallId, receipt: Receipt) returns (leave: seq<Event>)
    requires codec.Sound() && id !in Run(codec, file, schedule).calls
    ensures var lock := Run(codec, file, schedule).lock; leave == if lock.Some? then [Crash(lock.value)] else []
    ensures var s := Run(codec, file, schedule);
            var t := Run(codec, file, schedule + leave + WholeAppend(id, receipt));
            && id in t.calls && t.lock.None?
            && if Load(codec, s.file).Some?
               then t.calls[id].phase == Returned && t.log == s.log + [id]
                    && Load(codec, t.file) == Some(Load(codec, s.file).value + [receipt])
               else t.calls[id].phase == Refused && t.log == s.log && t.file == s.file
  {
    hide Load, AfterAppend;
    var s := Run(codec, file, schedule);
    RunKeepsLive(codec, file, schedule);
    leave := if s.lock.Some? then [Crash(s.lock.value)] else [];
    var free := schedule + leave;
    if s.lock.Some? { RunNext(codec, file, schedule, leave[0]); } else { assert free == schedule; }
    LoneAppend(codec, file, free, id, receipt);
    if Load(codec, s.file).Some? { LoadAfterAppend(codec, s.file, receipt); }
  }

  lemma LoneAppend(codec: Codec, file: File, schedule: seq<Event>, id: CallId, receipt: Receipt)
    requires Run(codec, file, schedule).lock.None? && id !in Run(codec, file, schedule).calls
    ensures var s := Run(codec, file, schedule);
            var t := Run(codec, file, schedule + WholeAppend(id, receipt));
            && t.lock.None?
            && if Load(codec, s.file).Some?
               then t.calls == s.calls[id := Call(receipt, Returned)] && t.log == s.log + [id]
                    && t.file == AfterAppend(codec, s.file, receipt)
               else t.calls == s.calls[id := Call(receipt, Refused)] && t.log == s.log && t.file == s.file
  {
    hide Run, Load, AfterAppend;
    var s := Run(codec, file, schedule);
    var x3 := Exec(codec, Exec(codec, Exec(codec, s, Start(id, receipt)), Lock(id)), Check(id));
    if Load(codec, s.file).Some? {
      assert x3 == s.(lock := Some(id), calls := s.calls[id := Call(receipt, Checked(s.file))]);
    } else {
      assert x3 == s.(calls := s.calls[id := Call(receipt, Refused)]);
    }
    var x5 := Exec(codec, Exec(codec, x3, Publish(id)), Return(id));
    assert Load(codec, s.file).Some? ==>
             x5.calls == s.calls[id := Call(receipt, Returned)] && x5.log == s.log + [id]
             && x5.file == AfterAppend(codec, s.file, receipt) && x5.lock.None?;
    hide Exec;
    var a := schedule + [Start(id, receipt)];
    var b := a + [Lock(id)];
    var c := b + [Check(id)];
    var d := c + [Publish(id)];
    RunNext(codec, file, schedule, Start(id, receipt));
    RunNext(codec, file, a, Lock(id));
    RunNext(codec, file, b, Check(id));
    RunNext(codec, file, c, Publish(id));
    RunNext(codec, file, d, Return(id));
    assert d + [Return(id)] == schedule + WholeAppend(id, receipt);
  }

  /** In every reachable state a replacement that fails leaves the file alone and
      frees the lock. */
  lemma ErrorsLetGo(codec: Codec, file: File, schedule: seq<Event>, id: CallId)
    requires codec.Sound() && id in Run(codec, file, schedule).calls
    requires Run(codec, file, schedule).calls[id].phase.Checked?
    ensures var s := Run(codec, file, schedule);
            Exec(codec, s, FailPublish(id)) == s.(lock := None, calls := s.calls[id := Call(s.calls[id].receipt, Refused)])
  {
    RunKeepsInv(codec, file, schedule);
    hide Run, Load, FileOk, ReadsOk;
    var s := Run(codec, file, schedule);
    assert CallOk(codec, s, id, s.calls[id]);
  }
}
