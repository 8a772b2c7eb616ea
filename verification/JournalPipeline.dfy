/**
  The journal build pipeline: one reader, any number of parsers and one writer,
  joined by two bounded queues.

  Every thread is a program counter; an action is one atomic step of one thread.
  A wait on a condition variable is an action that is enabled only while its
  predicate holds.  `Throw` is an exception raised by the step (a malformed
  record, a failed read, a failed write); record_pipeline_error then takes four
  separate steps, which other threads can interleave with.  The relaxed load of
  the failure flag may return a stale `false`.
 */
module JournalPipeline {
  import opened Arithmetic
  import opened Bytes
  import opened BucketJournal

  datatype Raw = Raw(key: Bytes, value: Bytes)

  /** What a parser makes of one source record. */
  datatype Parsed = Skipped | Malformed | Eligible(rec: Rec)

  datatype Config = Config(source: seq<Raw>, parse: Raw -> Parsed, rawCapacity: nat, encodedCapacity: nat)

  datatype Reader = RScan | RPush | RClose | RRecord(stage: nat) | RDone

  datatype Parser =
    PPop | PCheck(raw: Raw) | PParse(raw: Raw) | PPush(rec: Rec) | PRecord(stage: nat) | PLeave | PCloseEncoded | PDone

  datatype Writer = WPop | WWrite(rec: Rec) | WRecord(stage: nat) | WDone

  datatype State = State(
    pos: nat, reader: Reader,
    raw: seq<Raw>, rawClosed: bool,
    parsers: seq<Parser>, active: nat,
    encoded: seq<Rec>, encodedClosed: bool,
    writer: Writer, written: seq<Rec>,
    failed: bool, error: bool)

  datatype Choice = Go | Quit | Throw

  datatype Action = ReaderStep(choice: Choice) | ParserStep(i: nat, choice: Choice) | WriterStep(choice: Choice)

  function Initial(parserCount: nat): State {
    State(0, RScan, [], false, seq(parserCount, _ => PPop), parserCount, [], false, WPop, [], false, false)
  }

  predicate Finished(s: State) {
    s.reader == RDone && s.writer == WDone && forall i :: 0 <= i < |s.parsers| ==> s.parsers[i] == PDone
  }

  /** record_pipeline_error: remember the error, raise the flag, close both queues. */
  function RecordError(s: State, stage: nat): State {
    if stage == 0 then s.(error := true)
    else if stage == 1 then s.(failed := true)
    else if stage == 2 then s.(rawClosed := true)
    else s.(encodedClosed := true)
  }

  // ---- Reader ----------------------------------------------------------------

  predicate ReaderEnabled(c: Config, s: State, choice: Choice) {
    match s.reader
    case RScan => choice == Go || choice == Throw || (choice == Quit && s.failed && s.pos < |c.source|)
    case RPush => choice == Go && (s.rawClosed || |s.raw| < c.rawCapacity)
    case RClose => choice == Go
    case RRecord(_) => choice == Go
    case RDone => false
  }

  function ReaderDo(c: Config, s: State, choice: Choice): State
    requires s.pos <= |c.source| && (s.reader == RPush ==> s.pos < |c.source|)
  {
    match s.reader
    case RScan =>
      if choice == Throw then s.(reader := RRecord(0))
      else if choice == Quit then s.(reader := RDone)
      else if s.pos < |c.source| then s.(reader := RPush)
      else s.(reader := RClose)
    case RPush =>
      if s.rawClosed then s.(reader := RDone)
      else s.(reader := RScan, raw := s.raw + [c.source[s.pos]], pos := s.pos + 1)
    case RClose => s.(reader := RDone, rawClosed := true)
    case RRecord(k) => RecordError(s, k).(reader := if k < 3 then RRecord(k + 1) else RDone)
    case RDone => s
  }

  // ---- Parsers ---------------------------------------------------------------

  predicate ParserEnabled(c: Config, s: State, p: Parser, choice: Choice) {
    match p
    case PPop => choice == Go && (s.raw != [] || s.rawClosed)
    case PCheck(_) => choice == Go || (choice == Quit && s.failed)
    case PParse(_) => choice == Go || choice == Throw
    case PPush(_) => choice == Go && (s.encodedClosed || |s.encoded| < c.encodedCapacity)
    case PRecord(_) => choice == Go
    case PLeave => choice == Go
    case PCloseEncoded => choice == Go
    case PDone => false
  }

  /** What a parser at p does: the shared state after the step, and where it goes. */
  function ParserMove(c: Config, s: State, p: Parser, choice: Choice): (State, Parser) {
    match p
    case PPop =>
      if s.raw == [] then (s, PLeave) else (s.(raw := s.raw[1..]), PCheck(s.raw[0]))
    case PCheck(raw) => (s, if choice == Quit then PLeave else PParse(raw))
    case PParse(raw) =>
      if choice == Throw then (s, PRecord(0))
      else (match c.parse(raw)
            case Skipped => (s, PPop)
            case Malformed => (s, PRecord(0))
            case Eligible(rec) => (s, PPush(rec)))
    case PPush(rec) =>
      if s.encodedClosed then (s, PLeave) else (s.(encoded := s.encoded + [rec]), PPop)
    case PRecord(k) => (RecordError(s, k), if k < 3 then PRecord(k + 1) else PLeave)
    case PLeave =>
      (s.(active := if s.active == 0 then 0 else s.active - 1), if s.active == 1 then PCloseEncoded else PDone)
    case PCloseEncoded => (s.(encodedClosed := true), PDone)
    case PDone => (s, PDone)
  }

  function ParserDo(c: Config, s: State, i: nat, choice: Choice): State
    requires i < |s.parsers|
  {
    var (shared, p) := ParserMove(c, s, s.parsers[i], choice);
    shared.(parsers := s.parsers[i := p])
  }

  // ---- Writer ----------------------------------------------------------------

  predicate WriterEnabled(s: State, choice: Choice) {
    match s.writer
    case WPop => choice == Go && (s.encoded != [] || s.encodedClosed)
    case WWrite(_) => choice == Go || choice == Throw
    case WRecord(_) => choice == Go
    case WDone => false
  }

  function WriterDo(s: State, choice: Choice): State {
    match s.writer
    case WPop =>
      if s.encoded == [] then s.(writer := WDone)
      else s.(writer := WWrite(s.encoded[0]), encoded := s.encoded[1..])
    case WWrite(rec) =>
      if choice == Throw then s.(writer := WRecord(0)) else s.(writer := WPop, written := s.written + [rec])
    case WRecord(k) => RecordError(s, k).(writer := if k < 3 then WRecord(k + 1) else WDone)
    case WDone => s
  }

  // ---- Actions ---------------------------------------------------------------

  predicate Enabled(c: Config, s: State, a: Action) {
    match a
    case ReaderStep(choice) => ReaderEnabled(c, s, choice)
    case ParserStep(i, choice) => i < |s.parsers| && ParserEnabled(c, s, s.parsers[i], choice)
    case WriterStep(choice) => WriterEnabled(s, choice)
  }

  predicate Throws(a: Action) { a.choice == Throw }

  ghost predicate Sane(c: Config, s: State) {
    s.pos <= |c.source| && (s.reader == RPush ==> s.pos < |c.source|)
  }

  function Do(c: Config, s: State, a: Action): State
    requires Sane(c, s) && Enabled(c, s, a)
  {
    match a
    case ReaderStep(choice) => ReaderDo(c, s, choice)
    case ParserStep(i, choice) => ParserDo(c, s, i, choice)
    case WriterStep(choice) => WriterDo(s, choice)
  }

  /** `s` is reached from the initial state by the given actions, in order. */
  ghost predicate Reaches(c: Config, parserCount: nat, actions: seq<Action>, s: State)
    decreases |actions|
  {
    if actions == [] then s == Initial(parserCount)
    else exists before :: StepsTo(c, parserCount, actions, before, s)
  }

  ghost predicate StepsTo(c: Config, parserCount: nat, actions: seq<Action>, before: State, s: State)
    requires actions != []
    decreases |actions|, 0
  {
    var a := actions[|actions| - 1];
    && Reaches(c, parserCount, actions[..|actions| - 1], before)
    && Sane(c, before) && Enabled(c, before, a) && s == Do(c, before, a)
  }

  // ---- Tallies ---------------------------------------------------------------

  /** How many source records have outcome o. */
  function CountRaw(c: Config, raws: seq<Raw>, o: Parsed): nat {
    if raws == [] then 0
    else CountRaw(c, raws[..|raws| - 1], o) + (if c.parse(raws[|raws| - 1]) == o then 1 else 0)
  }

  function CountRec(recs: seq<Rec>, o: Parsed): nat {
    if recs == [] then 0
    else CountRec(recs[..|recs| - 1], o) + One(Eligible(recs[|recs| - 1]) == o)
  }

  lemma {:induction false} CountRawPop(c: Config, raws: seq<Raw>, o: Parsed)
    requires raws != []
    ensures CountRaw(c, raws, o) == One(c.parse(raws[0]) == o) + CountRaw(c, raws[1..], o)
    decreases |raws|
  {
    if |raws| > 1 {
      CountRawPop(c, raws[..|raws| - 1], o);
      assert raws[..|raws| - 1][1..] == raws[1..][..|raws| - 2];
    }
  }

  lemma {:induction false} CountRawPush(c: Config, raws: seq<Raw>, r: Raw, o: Parsed)
    ensures CountRaw(c, raws + [r], o) == CountRaw(c, raws, o) + One(c.parse(r) == o)
  {
    assert (raws + [r])[..|raws|] == raws;
  }

  lemma {:induction false} CountRecPop(recs: seq<Rec>, o: Parsed)
    requires recs != []
    ensures CountRec(recs, o) == One(Eligible(recs[0]) == o) + CountRec(recs[1..], o)
    decreases |recs|
  {
    if |recs| > 1 {
      CountRecPop(recs[..|recs| - 1], o);
      assert recs[..|recs| - 1][1..] == recs[1..][..|recs| - 2];
    }
  }

  lemma {:induction false} CountRecPush(recs: seq<Rec>, r: Rec, o: Parsed)
    ensures CountRec(recs + [r], o) == CountRec(recs, o) + One(Eligible(r) == o)
  {
    assert (recs + [r])[..|recs|] == recs;
  }

  /** Everything the invariant needs to know about the parsers, as numbers. */
  datatype Tally = Tally(
    alive: nat,    // not yet subtracted from active_parsers
    closing: nat,  // the last one out, about to close the encoded queue
    gone: nat,     // left the parsing loop
    at0: nat,      // about to record an error
    late: nat,     // has recorded an error
    at2: nat,      // about to close the raw queue
    at3: nat,      // about to close the encoded queue after an error
    held: nat,     // carrying a record of the given outcome
    weight: nat)   // steps it may still take without new input

  function TallyOf(c: Config, p: Parser, o: Parsed): Tally {
    Tally(
      One(!p.PCloseEncoded? && !p.PDone?),
      One(p.PCloseEncoded?),
      One(p.PLeave? || p.PCloseEncoded? || p.PDone?),
      One(p == PRecord(0)),
      One(p.PRecord? && p.stage > 0),
      One(p == PRecord(2)),
      One(p.PRecord? && p.stage >= 3),
      match p {
        case PCheck(raw) => One(c.parse(raw) == o)
        case PParse(raw) => One(c.parse(raw) == o)
        case PPush(rec) => One(Eligible(rec) == o)
        case _ => 0
      },
      match p {
        case PPop => 6
        case PCheck(_) => 13
        case PParse(_) => 12
        case PPush(_) => 11
        case PRecord(k) => if k < 3 then 10 - k else 7
        case PLeave => 2
        case PCloseEncoded => 1
        case PDone => 0
      })
  }

  function Add(a: Tally, b: Tally): Tally {
    Tally(a.alive + b.alive, a.closing + b.closing, a.gone + b.gone, a.at0 + b.at0, a.late + b.late,
          a.at2 + b.at2, a.at3 + b.at3, a.held + b.held, a.weight + b.weight)
  }

  function Sum(c: Config, ps: seq<Parser>, o: Parsed): Tally {
    if ps == [] then Tally(0, 0, 0, 0, 0, 0, 0, 0, 0)
    else Add(Sum(c, ps[..|ps| - 1], o), TallyOf(c, ps[|ps| - 1], o))
  }

  /** The tally of all parsers but the i-th. */
  function Others(c: Config, ps: seq<Parser>, o: Parsed, i: nat): Tally
    requires i < |ps|
  {
    var n := |ps| - 1;
    if i == n then Sum(c, ps[..n], o) else Add(Others(c, ps[..n], o, i), TallyOf(c, ps[n], o))
  }

  lemma {:induction false} SumSplits(c: Config, ps: seq<Parser>, o: Parsed, i: nat)
    requires i < |ps|
    ensures Sum(c, ps, o) == Add(Others(c, ps, o, i), TallyOf(c, ps[i], o))
    decreases |ps|
  {
    if i < |ps| - 1 { SumSplits(c, ps[..|ps| - 1], o, i); }
  }

  lemma {:induction false} OthersStay(c: Config, ps: seq<Parser>, o: Parsed, i: nat, p: Parser)
    requires i < |ps|
    ensures Others(c, ps[i := p], o, i) == Others(c, ps, o, i)
    decreases |ps|
  {
    var n := |ps| - 1;
    if i < n {
      OthersStay(c, ps[..n], o, i, p);
      assert ps[i := p][..n] == ps[..n][i := p];
    } else {
      assert ps[i := p][..n] == ps[..n];
    }
  }

  // ---- The invariant ---------------------------------------------------------

  function At2(s: State, t: Tally): nat {
    t.at2 + One(s.reader == RRecord(2)) + One(s.writer == WRecord(2))
  }

  /** An error has been recorded, or some thread is about to record one. */
  predicate Doomed(s: State, t: Tally) {
    s.error || t.at0 > 0 || s.reader == RRecord(0) || s.writer == WRecord(0)
  }

  /** Bookkeeping of the shutdown protocol, failing runs included. */
  ghost predicate Protocol(c: Config, s: State, t: Tally) {
    && Sane(c, s) && |s.parsers| > 0
    && 0 < c.rawCapacity && |s.raw| <= c.rawCapacity
    && 0 < c.encodedCapacity && |s.encoded| <= c.encodedCapacity
    && s.active == t.alive
    && (t.closing > 0 ==> s.active == 0)
    && (s.encodedClosed || s.active + t.closing > 0)
    && (s.failed ==> s.error)
    && (t.late > 0 || (s.reader.RRecord? && s.reader.stage > 0) || (s.writer.WRecord? && s.writer.stage > 0) ==> s.error)
    && (s.failed ==> s.rawClosed || At2(s, t) > 0)
    && (t.at3 > 0 || (s.reader.RRecord? && s.reader.stage >= 3) || (s.writer.WRecord? && s.writer.stage >= 3) ==> s.rawClosed)
    && (s.reader == RDone ==> s.rawClosed || At2(s, t) > 0)
    && (t.gone > 0 ==> s.rawClosed || At2(s, t) > 0)
    && (s.encodedClosed && s.active > 0 ==> s.rawClosed)
    && (s.writer == WDone ==> s.encodedClosed)
  }

  /** While no error is on its way, no record is lost and none is duplicated. */
  ghost predicate Conserves(c: Config, s: State, t: Tally, o: Parsed)
    requires s.pos <= |c.source|
  {
    && (s.rawClosed ==> s.reader == RDone)
    && (s.reader == RDone ==> s.rawClosed)
    && (s.reader == RClose || s.reader == RDone ==> s.pos == |c.source|)
    && (s.encodedClosed ==> s.active == 0)
    && (t.gone > 0 ==> s.rawClosed && s.raw == [])
    && (s.writer == WDone ==> s.encoded == [])
    && CountRaw(c, c.source[..s.pos], o)
       == CountRaw(c, s.raw, o) + t.held + CountRec(s.encoded, o)
          + One(s.writer.WWrite? && Eligible(s.writer.rec) == o) + CountRec(s.written, o)
  }

  ghost predicate SafeWith(c: Config, s: State, t: Tally, o: Parsed) {
    && Protocol(c, s, t)
    && (!Doomed(s, t) ==> Conserves(c, s, t, o))
  }

  ghost predicate Inv(c: Config, s: State, o: Parsed) {
    SafeWith(c, s, Sum(c, s.parsers, o), o)
  }

  lemma {:induction false} SumOfIdle(c: Config, n: nat, o: Parsed)
    ensures Sum(c, seq(n, _ => PPop), o) == Tally(n, 0, 0, 0, 0, 0, 0, 0, 6 * n)
    decreases n
  {
    if n > 0 {
      SumOfIdle(c, n - 1, o);
      assert seq(n, _ => PPop)[..n - 1] == seq(n - 1, _ => PPop);
    }
  }

  lemma {:induction false} InitialInv(c: Config, n: nat, o: Parsed)
    requires n > 0 && c.rawCapacity > 0 && c.encodedCapacity > 0
    ensures Inv(c, Initial(n), o)
  {
    SumOfIdle(c, n, o);
    assert c.source[..0] == [];
  }

  // Each actor in turn; `t` and `t'` are the tallies before and after.

  lemma {:induction false} ReaderKeepsProtocol(c: Config, s: State, choice: Choice, t: Tally)
    requires Protocol(c, s, t) && ReaderEnabled(c, s, choice)
    ensures Protocol(c, ReaderDo(c, s, choice), t)
  {
  }

  lemma {:induction false} ReaderConserves(c: Config, s: State, choice: Choice, t: Tally, o: Parsed)
    requires SafeWith(c, s, t, o) && ReaderEnabled(c, s, choice)
    requires Protocol(c, ReaderDo(c, s, choice), t)
    ensures SafeWith(c, ReaderDo(c, s, choice), t, o)
  {
    if s.reader == RPush && !s.rawClosed {
      CountRawPush(c, s.raw, c.source[s.pos], o);
      CountRawPush(c, c.source[..s.pos], c.source[s.pos], o);
      assert c.source[..s.pos] + [c.source[s.pos]] == c.source[..s.pos + 1];
    }
  }

  lemma {:induction false} WriterKeepsProtocol(c: Config, s: State, choice: Choice, t: Tally)
    requires Protocol(c, s, t) && WriterEnabled(s, choice)
    ensures Protocol(c, WriterDo(s, choice), t)
  {
  }

  lemma {:induction false} WriterConserves(c: Config, s: State, choice: Choice, t: Tally, o: Parsed)
    requires SafeWith(c, s, t, o) && WriterEnabled(s, choice)
    requires Protocol(c, WriterDo(s, choice), t)
    ensures SafeWith(c, WriterDo(s, choice), t, o)
  {
    if s.writer == WPop && s.encoded != [] {
      CountRecPop(s.encoded, o);
    } else if s.writer.WWrite? {
      CountRecPush(s.written, s.writer.rec, o);
    }
  }

  lemma {:induction false} ParserLoopProtocol(c: Config, s: State, p: Parser, choice: Choice, rest: Tally, o: Parsed)
    requires Protocol(c, s, Add(rest, TallyOf(c, p, o))) && ParserEnabled(c, s, p, choice)
    requires p.PPop? || p.PCheck? || p.PParse? || p.PPush?
    ensures var (s', p') := ParserMove(c, s, p, choice); Protocol(c, s', Add(rest, TallyOf(c, p', o)))
  {
  }

  lemma {:induction false} ParserExitProtocol(c: Config, s: State, p: Parser, choice: Choice, rest: Tally, o: Parsed)
    requires Protocol(c, s, Add(rest, TallyOf(c, p, o))) && ParserEnabled(c, s, p, choice)
    requires p.PRecord? || p.PLeave? || p.PCloseEncoded?
    ensures var (s', p') := ParserMove(c, s, p, choice); Protocol(c, s', Add(rest, TallyOf(c, p', o)))
  {
  }

  lemma {:induction false} ParserConserves(c: Config, s: State, p: Parser, choice: Choice, rest: Tally, o: Parsed)
    requires SafeWith(c, s, Add(rest, TallyOf(c, p, o)), o) && o != Skipped && ParserEnabled(c, s, p, choice)
    requires !Doomed(ParserMove(c, s, p, choice).0, Add(rest, TallyOf(c, ParserMove(c, s, p, choice).1, o)))
    requires Sane(c, ParserMove(c, s, p, choice).0)
    ensures var (s', p') := ParserMove(c, s, p, choice); Conserves(c, s', Add(rest, TallyOf(c, p', o)), o)
  {
    if p == PPop && s.raw != [] {
      CountRawPop(c, s.raw, o);
    } else if p.PPush? {
      CountRecPush(s.encoded, p.rec, o);
    }
  }

  lemma {:induction false} ParserKeeps(c: Config, s: State, p: Parser, choice: Choice, rest: Tally, o: Parsed)
    requires SafeWith(c, s, Add(rest, TallyOf(c, p, o)), o) && o != Skipped && ParserEnabled(c, s, p, choice)
    ensures var (s', p') := ParserMove(c, s, p, choice); SafeWith(c, s', Add(rest, TallyOf(c, p', o)), o)
  {
    if p.PRecord? || p.PLeave? || p.PCloseEncoded? {
      ParserExitProtocol(c, s, p, choice, rest, o);
    } else {
      ParserLoopProtocol(c, s, p, choice, rest, o);
    }
    var (s', p') := ParserMove(c, s, p, choice);
    if !Doomed(s', Add(rest, TallyOf(c, p', o))) {
      ParserConserves(c, s, p, choice, rest, o);
    }
  }

  lemma {:induction false} ParserStepKeeps(c: Config, s: State, i: nat, choice: Choice, o: Parsed)
    requires Inv(c, s, o) && o != Skipped
    requires i < |s.parsers| && ParserEnabled(c, s, s.parsers[i], choice)
    ensures Inv(c, ParserDo(c, s, i, choice), o)
  {
    var ps, p := s.parsers, s.parsers[i];
    var (s', p') := ParserMove(c, s, p, choice);
    var rest := Others(c, ps, o, i);
    SumSplits(c, ps, o, i);
    ParserKeeps(c, s, p, choice, rest, o);
    SumSplits(c, ps[i := p'], o, i);
    OthersStay(c, ps, o, i, p');
    OnlyCountsMatter(c, s', ps[i := p'], Add(rest, TallyOf(c, p', o)), o);
  }

  lemma {:induction false} OnlyCountsMatter(c: Config, s: State, ps: seq<Parser>, t: Tally, o: Parsed)
    requires SafeWith(c, s, t, o) && |ps| > 0
    ensures SafeWith(c, s.(parsers := ps), t, o)
  {
  }

  lemma {:induction false} ReaderStepKeeps(c: Config, s: State, choice: Choice, o: Parsed)
    requires Inv(c, s, o) && ReaderEnabled(c, s, choice)
    ensures Inv(c, ReaderDo(c, s, choice), o)
  {
    ReaderKeepsProtocol(c, s, choice, Sum(c, s.parsers, o));
    ReaderConserves(c, s, choice, Sum(c, s.parsers, o), o);
  }

  lemma {:induction false} WriterStepKeeps(c: Config, s: State, choice: Choice, o: Parsed)
    requires Inv(c, s, o) && WriterEnabled(s, choice)
    ensures Inv(c, WriterDo(s, choice), o)
  {
    WriterKeepsProtocol(c, s, choice, Sum(c, s.parsers, o));
    WriterConserves(c, s, choice, Sum(c, s.parsers, o), o);
  }

  lemma {:induction false} ReachedInv(c: Config, n: nat, actions: seq<Action>, s: State, o: Parsed)
    requires n > 0 && c.rawCapacity > 0 && c.encodedCapacity > 0 && o != Skipped
    requires Reaches(c, n, actions, s)
    ensures Inv(c, s, o)
    decreases |actions|
  {
    if actions == [] {
      InitialInv(c, n, o);
    } else {
      var before :| StepsTo(c, n, actions, before, s);
      ReachedInv(c, n, actions[..|actions| - 1], before, o);
      match actions[|actions| - 1]
      case ReaderStep(choice) => ReaderStepKeeps(c, before, choice, o);
      case ParserStep(i, choice) => ParserStepKeeps(c, before, i, choice, o);
      case WriterStep(choice) => WriterStepKeeps(c, before, choice, o);
    }
  }

  // ---- Theorem 1: a run without a recorded error loses and duplicates nothing ----

  /** The journal records of the eligible source records, in source order. */
  function EligibleRecs(c: Config, raws: seq<Raw>): seq<Rec> {
    if raws == [] then []
    else
      var front := EligibleRecs(c, raws[..|raws| - 1]);
      match c.parse(raws[|raws| - 1])
      case Eligible(rec) => front + [rec]
      case _ => front
  }

  lemma {:induction false} CountsEligible(c: Config, raws: seq<Raw>, rec: Rec)
    ensures CountRaw(c, raws, Eligible(rec)) == multiset(EligibleRecs(c, raws))[rec]
    decreases |raws|
  {
    if raws != [] { CountsEligible(c, raws[..|raws| - 1], rec); }
  }

  lemma {:induction false} CountsRecs(recs: seq<Rec>, rec: Rec)
    ensures CountRec(recs, Eligible(rec)) == multiset(recs)[rec]
    decreases |recs|
  {
    if recs != [] {
      CountsRecs(recs[..|recs| - 1], rec);
      assert recs == recs[..|recs| - 1] + [recs[|recs| - 1]];
    }
  }

  lemma {:induction false} CountRecNone(recs: seq<Rec>, o: Parsed)
    requires !o.Eligible?
    ensures CountRec(recs, o) == 0
    decreases |recs|
  {
    if recs != [] { CountRecNone(recs[..|recs| - 1], o); }
  }

  lemma {:induction false} CountRawZero(c: Config, raws: seq<Raw>, o: Parsed, i: nat)
    requires CountRaw(c, raws, o) == 0 && i < |raws|
    ensures c.parse(raws[i]) != o
    decreases |raws|
  {
    if i < |raws| - 1 { CountRawZero(c, raws[..|raws| - 1], o, i); }
  }

  lemma {:induction false} SumOfDone(c: Config, ps: seq<Parser>, o: Parsed)
    requires forall i :: 0 <= i < |ps| ==> ps[i] == PDone
    ensures Sum(c, ps, o) == Tally(0, 0, |ps|, 0, 0, 0, 0, 0, 0)
    decreases |ps|
  {
    if ps != [] { SumOfDone(c, ps[..|ps| - 1], o); }
  }

  lemma {:induction false} FinishedCounts(c: Config, n: nat, actions: seq<Action>, s: State, o: Parsed)
    requires n > 0 && c.rawCapacity > 0 && c.encodedCapacity > 0 && o != Skipped
    requires Reaches(c, n, actions, s) && Finished(s) && !s.error
    ensures CountRaw(c, c.source, o) == CountRec(s.written, o)
  {
    ReachedInv(c, n, actions, s, o);
    SumOfDone(c, s.parsers, o);
    assert c.source[..|c.source|] == c.source;
  }

  /** For every interleaving: if all threads are done and no error was recorded,
      exactly the eligible source records were written, each once, and no source
      record was malformed. */
  lemma {:induction false} NothingLostOrDuplicated(c: Config, n: nat, actions: seq<Action>, s: State)
    requires n > 0 && c.rawCapacity > 0 && c.encodedCapacity > 0
    requires Reaches(c, n, actions, s) && Finished(s) && !s.error
    ensures multiset(s.written) == multiset(EligibleRecs(c, c.source))
    ensures forall i :: 0 <= i < |c.source| ==> c.parse(c.source[i]) != Malformed
  {
    forall rec: Rec
      ensures multiset(s.written)[rec] == multiset(EligibleRecs(c, c.source))[rec]
    {
      FinishedCounts(c, n, actions, s, Eligible(rec));
      CountsEligible(c, c.source, rec);
      CountsRecs(s.written, rec);
    }
    FinishedCounts(c, n, actions, s, Malformed);
    CountRecNone(s.written, Malformed);
    forall i | 0 <= i < |c.source|
      ensures c.parse(c.source[i]) != Malformed
    {
      CountRawZero(c, c.source, Malformed, i);
    }
  }

  /** The queue capacities bound the number of records in flight. */
  lemma {:induction false} QueuesStayBounded(c: Config, n: nat, actions: seq<Action>, s: State)
    requires n > 0 && c.rawCapacity > 0 && c.encodedCapacity > 0
    requires Reaches(c, n, actions, s)
    ensures |s.raw| <= c.rawCapacity && |s.encoded| <= c.encodedCapacity
  {
    ReachedInv(c, n, actions, s, Malformed);
  }

  // ---- Theorem 2: no reachable unfinished state is stuck -------------------------

  ghost predicate Waiting(p: Parser) { p.PPop? || p.PPush? || p.PDone? }

  lemma {:induction false} SumOfWaiting(c: Config, ps: seq<Parser>, o: Parsed)
    requires forall i :: 0 <= i < |ps| ==> Waiting(ps[i])
    ensures var t := Sum(c, ps, o); t.at2 == 0 && t.closing == 0
    decreases |ps|
  {
    if ps != [] { SumOfWaiting(c, ps[..|ps| - 1], o); }
  }

  /** Nobody can act on the parser side, so the writer or the reader can. */
  lemma {:induction false} SomeoneActs(c: Config, s: State, t: Tally)
    requires Protocol(c, s, t) && t.at2 == 0 && t.closing == 0
    requires forall i :: 0 <= i < |s.parsers| ==> Waiting(s.parsers[i]) && !ParserEnabled(c, s, s.parsers[i], Go)
    requires forall i :: 0 <= i < |s.parsers| ==> s.parsers[i] == PDone ==> t.gone > 0
    requires (forall i :: 0 <= i < |s.parsers| ==> s.parsers[i] == PDone) ==> t.alive == 0
    requires !Finished(s)
    ensures ReaderEnabled(c, s, Go) || WriterEnabled(s, Go)
  {
    if i :| 0 <= i < |s.parsers| && s.parsers[i] != PDone {
      assert !ParserEnabled(c, s, s.parsers[i], Go);
    } else {
      assert s.parsers[0] == PDone;
    }
  }

  lemma {:induction false} GoneCounts(c: Config, ps: seq<Parser>, o: Parsed, i: nat)
    requires i < |ps| && ps[i] == PDone
    ensures Sum(c, ps, o).gone > 0
  {
    SumSplits(c, ps, o, i);
  }

  lemma {:induction false} NeverStuck(c: Config, n: nat, actions: seq<Action>, s: State)
    requires n > 0 && c.rawCapacity > 0 && c.encodedCapacity > 0
    requires Reaches(c, n, actions, s) && !Finished(s)
    ensures exists a :: Enabled(c, s, a) && !Throws(a)
  {
    ReachedInv(c, n, actions, s, Malformed);
    var t := Sum(c, s.parsers, Malformed);
    if i :| 0 <= i < |s.parsers| && ParserEnabled(c, s, s.parsers[i], Go) {
      assert Enabled(c, s, ParserStep(i, Go));
    } else {
      assert forall i :: 0 <= i < |s.parsers| ==> !ParserEnabled(c, s, s.parsers[i], Go) && Waiting(s.parsers[i]);
      SumOfWaiting(c, s.parsers, Malformed);
      forall i | 0 <= i < |s.parsers| && s.parsers[i] == PDone
        ensures t.gone > 0
      {
        GoneCounts(c, s.parsers, Malformed, i);
      }
      if forall i :: 0 <= i < |s.parsers| ==> s.parsers[i] == PDone {
        SumOfDone(c, s.parsers, Malformed);
      }
      SomeoneActs(c, s, t);
      assert Enabled(c, s, ReaderStep(Go)) || Enabled(c, s, WriterStep(Go));
    }
  }

  // ---- Theorem 3: every run is finite --------------------------------------------

  function ReaderWeight(r: Reader): nat {
    match r
    case RScan => 7
    case RPush => 6
    case RRecord(k) => if k < 3 then 5 - k else 2
    case RClose => 1
    case RDone => 0
  }

  function WriterWeight(w: Writer): nat {
    match w
    case WPop => 6
    case WWrite(_) => 8
    case WRecord(k) => if k < 3 then 5 - k else 2
    case WDone => 0
  }

  function Rank(c: Config, s: State, weight: nat): int {
    10 * (|c.source| - s.pos) + ReaderWeight(s.reader) + 8 * |s.raw| + weight + 3 * |s.encoded| + WriterWeight(s.writer)
  }

  lemma {:induction false} ParserRankFalls(c: Config, s: State, p: Parser, choice: Choice, rest: nat)
    requires ParserEnabled(c, s, p, choice)
    ensures var (s', p') := ParserMove(c, s, p, choice);
      Rank(c, s', rest + TallyOf(c, p', Malformed).weight) < Rank(c, s, rest + TallyOf(c, p, Malformed).weight)
  {
  }

  lemma {:induction false} ReaderRankFalls(c: Config, s: State, choice: Choice, weight: nat)
    requires Sane(c, s) && ReaderEnabled(c, s, choice)
    ensures 0 <= Rank(c, ReaderDo(c, s, choice), weight) < Rank(c, s, weight)
  {
  }

  lemma {:induction false} WriterRankFalls(c: Config, s: State, choice: Choice, weight: nat)
    requires Sane(c, s) && WriterEnabled(s, choice)
    ensures 0 <= Rank(c, WriterDo(s, choice), weight) < Rank(c, s, weight)
  {
  }

  lemma {:induction false} ParserStepRankFalls(c: Config, s: State, i: nat, choice: Choice)
    requires Sane(c, s) && i < |s.parsers| && ParserEnabled(c, s, s.parsers[i], choice)
    ensures var s' := ParserDo(c, s, i, choice);
      0 <= Rank(c, s', Sum(c, s'.parsers, Malformed).weight) < Rank(c, s, Sum(c, s.parsers, Malformed).weight)
  {
    var ps := s.parsers;
    var p' := ParserMove(c, s, ps[i], choice).1;
    SumSplits(c, ps, Malformed, i);
    SumSplits(c, ps[i := p'], Malformed, i);
    OthersStay(c, ps, Malformed, i, p');
    ParserRankFalls(c, s, ps[i], choice, Others(c, ps, Malformed, i).weight);
  }

  function Remaining(c: Config, s: State): int {
    Rank(c, s, Sum(c, s.parsers, Malformed).weight)
  }

  lemma {:induction false} RemainingFalls(c: Config, s: State, a: Action)
    requires Sane(c, s) && Enabled(c, s, a)
    ensures 0 <= Remaining(c, Do(c, s, a)) < Remaining(c, s)
  {
    match a
    case ReaderStep(choice) => ReaderRemaining(c, s, choice);
    case ParserStep(i, choice) => ParserStepRankFalls(c, s, i, choice);
    case WriterStep(choice) => WriterRemaining(c, s, choice);
  }

  lemma {:induction false} ReaderRemaining(c: Config, s: State, choice: Choice)
    requires Sane(c, s) && ReaderEnabled(c, s, choice)
    ensures 0 <= Remaining(c, ReaderDo(c, s, choice)) < Remaining(c, s)
  {
    assert ReaderDo(c, s, choice).parsers == s.parsers;
    ReaderRankFalls(c, s, choice, Sum(c, s.parsers, Malformed).weight);
  }

  lemma {:induction false} WriterRemaining(c: Config, s: State, choice: Choice)
    requires Sane(c, s) && WriterEnabled(s, choice)
    ensures 0 <= Remaining(c, WriterDo(s, choice)) < Remaining(c, s)
  {
    assert WriterDo(s, choice).parsers == s.parsers;
    WriterRankFalls(c, s, choice, Sum(c, s.parsers, Malformed).weight);
  }

  lemma {:induction false} ReachedRank(c: Config, n: nat, actions: seq<Action>, s: State)
    requires Reaches(c, n, actions, s)
    ensures |actions| + Remaining(c, s) <= Remaining(c, Initial(n))
    ensures |actions| > 0 ==> Remaining(c, s) >= 0
    decreases |actions|
  {
    if actions != [] {
      var before :| StepsTo(c, n, actions, before, s);
      ReachedRank(c, n, actions[..|actions| - 1], before);
      RemainingFalls(c, before, actions[|actions| - 1]);
    }
  }

  /** No run, failing or not, takes more than 10 * |source| + 6 * parsers + 13 steps;
      with NeverStuck, every run that goes on as long as it can ends with all
      threads done. */
  lemma {:induction false} EveryRunEnds(c: Config, n: nat, actions: seq<Action>, s: State)
    requires Reaches(c, n, actions, s)
    ensures |actions| <= 10 * |c.source| + 6 * n + 13
  {
    ReachedRank(c, n, actions, s);
    SumOfIdle(c, n, Malformed);
  }

  // ---- Theorem 4: an error has a cause -----------------------------------------------

  ghost predicate WellFormed(c: Config, raws: seq<Raw>) {
    forall i :: 0 <= i < |raws| ==> c.parse(raws[i]) != Malformed
  }

  predicate CleanParser(c: Config, p: Parser) {
    match p
    case PCheck(raw) => c.parse(raw) != Malformed
    case PParse(raw) => c.parse(raw) != Malformed
    case PRecord(_) => false
    case _ => true
  }

  /** No error is recorded, none is on its way, and nothing in flight would raise one. */
  ghost predicate Clean(c: Config, s: State) {
    && !s.error && !s.failed && !s.reader.RRecord? && !s.writer.WRecord? && WellFormed(c, s.raw)
    && forall i :: 0 <= i < |s.parsers| ==> CleanParser(c, s.parsers[i])
  }

  lemma {:induction false} StepStaysClean(c: Config, s: State, a: Action)
    requires WellFormed(c, c.source) && Clean(c, s) && Sane(c, s) && Enabled(c, s, a) && !Throws(a)
    ensures Clean(c, Do(c, s, a))
  {
    if a.ParserStep? { assert CleanParser(c, s.parsers[a.i]); }
  }

  /** If no step throws and no source record is malformed, no run records an error; so a
      finished one has written every eligible record. */
  lemma {:induction false} ErrorsHaveCauses(c: Config, n: nat, actions: seq<Action>, s: State)
    requires WellFormed(c, c.source) && Reaches(c, n, actions, s)
    requires forall i :: 0 <= i < |actions| ==> !Throws(actions[i])
    ensures Clean(c, s)
    decreases |actions|
  {
    if actions != [] {
      var before :| StepsTo(c, n, actions, before, s);
      ErrorsHaveCauses(c, n, actions[..|actions| - 1], before);
      StepStaysClean(c, before, actions[|actions| - 1]);
    }
  }

  /** The whole of a well-formed source is journalled by every run that nothing interrupts. */
  lemma {:induction false} UndisturbedRunsComplete(c: Config, n: nat, actions: seq<Action>, s: State)
    requires n > 0 && c.rawCapacity > 0 && c.encodedCapacity > 0 && WellFormed(c, c.source)
    requires Reaches(c, n, actions, s) && forall i :: 0 <= i < |actions| ==> !Throws(actions[i])
    requires forall a :: Throws(a) || !Enabled(c, s, a)
    ensures Finished(s) && !s.error && multiset(s.written) == multiset(EligibleRecs(c, c.source))
  {
    ErrorsHaveCauses(c, n, actions, s);
    if !Finished(s) { NeverStuck(c, n, actions, s); }
    NothingLostOrDuplicated(c, n, actions, s);
  }
}
