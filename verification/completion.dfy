/** The streaming completion of an interactive prompt: the request either is
    refused, which ends the process, or yields a stream of fragments whose
    contents are echoed and collected into the answer of one recorded turn. */
module Completion {
  import opened Maybe
  import opened Text
  import opened SessionState

  /** One item of the stream: a `null` item, a chunk whose first choice may or
      may not carry content, or the point where iterating the stream throws. */
  datatype Fragment = NullChunk | Delta(content: Option<string>) | Broken

  /** The outcome of the request that opens the stream: the stream itself, or a
      refusal with the error's message and, when the error has a response, its
      HTTP status. */
  datatype Response = Stream(fragments: seq<Fragment>) | Refused(message: string, status: Option<int>)

  /** The extra explanation printed for a refused request's status. */
  function StatusMessage(status: int): (m: Option<string>)
    ensures m.Some? <==> status == 401 || status == 429
    ensures status == 401 ==> m == Some("Invalid API key")
    ensures status == 429 ==> m == Some("API request limit reached")
  {
    if status == 401 then Some("Invalid API key")
    else if status == 429 then Some("API request limit reached")
    else None
  }

  /** What a fragment adds to the answer: its content, or "" when it has none. */
  function FragmentText(f: Fragment): string {
    if f.Delta? then f.content.OrElse("") else ""
  }

  /** The texts of all fragments, in order. */
  function Contents(fs: seq<Fragment>): string {
    if fs == [] then "" else FragmentText(fs[0]) + Contents(fs[1..])
  }

  /** The number of leading content chunks, i.e. the position where iteration stops. */
  function StopIndex(fs: seq<Fragment>): (k: nat)
    ensures k <= |fs|
    ensures forall i :: 0 <= i < k ==> fs[i].Delta?
    ensures k < |fs| ==> !fs[k].Delta?
  {
    if fs == [] || !fs[0].Delta? then 0 else 1 + StopIndex(fs[1..])
  }

  /** The answer text: the in-order contents of the chunks before the stream stops. */
  function Answer(fs: seq<Fragment>): string {
    Contents(fs[..StopIndex(fs)])
  }

  /** Iteration runs to the end of the stream. */
  predicate EndsNormally(fs: seq<Fragment>) {
    StopIndex(fs) == |fs|
  }

  /** The exchange gets recorded: iteration ends or throws; only a `null` item
      returns before recording. */
  predicate Records(fs: seq<Fragment>) {
    EndsNormally(fs) || fs[StopIndex(fs)] == Broken
  }

  lemma AnswerCons(fs: seq<Fragment>)
    requires fs != [] && fs[0].Delta?
    ensures Answer(fs) == FragmentText(fs[0]) + Answer(fs[1..])
    ensures EndsNormally(fs) == EndsNormally(fs[1..])
    ensures Records(fs) == Records(fs[1..])
  {
    var k := StopIndex(fs[1..]);
    assert fs[..k + 1] == [fs[0]] + fs[1..][..k];
    assert ([fs[0]] + fs[1..][..k])[1..] == fs[1..][..k];
  }

  /** The session once the stream has been consumed: when the exchange is
      recorded, the pending exchange carries the whole accumulated answer, is
      the history's new last entry, and the accumulator is empty; after a `null`
      item only the accumulator has grown. */
  function Settled(s: Session, fs: seq<Fragment>): Session {
    var answer := s.accumulator + Answer(fs);
    if Records(fs) then
      s.(history := s.history + [s.pending.(answer := answer)],
         pending := s.pending.(answer := answer),
         accumulator := "")
    else s.(accumulator := answer)
  }

  /** The `for await` loop over the stream and what follows it. Each chunk's
      text is appended to the accumulator and echoed; a `null` item returns at
      once; otherwise, after the end or after a caught error, the pending
      exchange gets the accumulated answer, is appended to the history, and the
      accumulator is cleared. */
  function Consume(s: Session, fs: seq<Fragment>): (o: Outcome)
    ensures o.session == Settled(s, fs)
    decreases |fs|
  {
    if fs == [] then
      assert s.accumulator + Answer(fs) == s.accumulator;
      var t := s.pending.(answer := s.accumulator);
      Outcome(s.(history := s.history + [t], pending := t, accumulator := ""), [Write("\n"), ShowPrompt])
    else
      assert fs[..0] == [];
      match fs[0]
      case NullChunk => Outcome(s, [])
      case Broken =>
        assert StopIndex(fs) == 0 && Answer(fs) == [] && Records(fs);
        assert s.accumulator + Answer(fs) == s.accumulator;
        var t := s.pending.(answer := s.accumulator);
        Outcome(s.(history := s.history + [t], pending := t, accumulator := ""),
                [Log("An error occurred during OpenAI request: "), ShowPrompt])
      case Delta(c) =>
        var text := c.OrElse("");
        var s' := s.(accumulator := s.accumulator + text);
        var o := Consume(s', fs[1..]);
        AnswerCons(fs);
        assert s'.accumulator + Answer(fs[1..]) == s.accumulator + Answer(fs);
        Outcome(o.session, [Write(text)] + o.effects)
  }

  /** What is echoed is exactly the answer, in order, followed by a newline
      when the stream ran to its end. */
  lemma {:induction false} EchoIsAnswer(s: Session, fs: seq<Fragment>)
    ensures Written(Consume(s, fs).effects) == Answer(fs) + (if EndsNormally(fs) then "\n" else "")
    decreases |fs|
  {
    assert fs[..0] == [];
    if fs == [] {
    } else if fs[0].Delta? {
      var text := fs[0].content.OrElse("");
      var o := Consume(s.(accumulator := s.accumulator + text), fs[1..]);
      EchoIsAnswer(s.(accumulator := s.accumulator + text), fs[1..]);
      AnswerCons(fs);
      WrittenAppend([Write(text)], o.effects);
      assert Written([Write(text)]) == text;
    } else {
      assert StopIndex(fs) == 0;
    }
  }

  /** The prompt is shown again exactly when the exchange is recorded; after a
      `null` item the user is left without one. */
  lemma {:induction false} PromptShownWhenRecorded(s: Session, fs: seq<Fragment>)
    ensures ShowPrompt in Consume(s, fs).effects <==> Records(fs)
    decreases |fs|
  {
    if fs != [] && fs[0].Delta? {
      var text := fs[0].content.OrElse("");
      PromptShownWhenRecorded(s.(accumulator := s.accumulator + text), fs[1..]);
      AnswerCons(fs);
    }
  }

  /** Consuming a stream only records: nothing but the history, the pending
      exchange and the accumulator changes, the history only grows, and by
      at most one turn, whose prompt and mode are the pending ones. */
  lemma ConsumeFrame(s: Session, fs: seq<Fragment>)
    ensures var t := Consume(s, fs).session;
      && t.(history := s.history, pending := s.pending, accumulator := s.accumulator) == s
      && s.history <= t.history
      && |t.history| <= |s.history| + 1
      && (|t.history| == |s.history| + 1 ==>
            t.history[|s.history|].prompt == s.pending.prompt &&
            t.history[|s.history|].mode == s.pending.mode)
  {
  }

  /** `runCompletion` after the request is built: a refused request prints its
      message, and the explanation for 401 or 429, and exits without saving
      anything; an opened stream is consumed. */
  function Respond(s: Session, r: Response): (o: Outcome)
    ensures o.session.config == s.config && o.session.settingsPrompt == s.settingsPrompt
    ensures s.history <= o.session.history && |o.session.history| <= |s.history| + 1
    ensures o.session.terminated <==> s.terminated || r.Refused?
  {
    match r
    case Refused(message, status) =>
      var explanation := if status.Some? && StatusMessage(status.value).Some?
                         then [Log(StatusMessage(status.value).value)] else [];
      Outcome(s.(terminated := true), [Log(message + ":")] + explanation + [Exit(0)])
    case Stream(fs) => Consume(s, fs)
  }

  /** A refused request ends the process with nothing saved and nothing recorded. */
  lemma RefusalExits(s: Session, message: string, status: Option<int>)
    ensures var o := Respond(s, Refused(message, status));
      && o.session == s.(terminated := true)
      && Occurrences(o.effects, SaveHistory) == 0
      && Occurrences(o.effects, SaveConfig) == 0
      && o.effects[|o.effects| - 1] == Exit(0)
      && (status == Some(401) ==> Log("Invalid API key") in o.effects)
      && (status == Some(429) ==> Log("API request limit reached") in o.effects)
  {
  }

  /** The concatenation of a list of texts. */
  function Flatten(ts: seq<string>): string {
    if ts == [] then "" else ts[0] + Flatten(ts[1..])
  }

  /** A stream carrying the given texts, one chunk each. */
  function Deltas(ts: seq<string>): (fs: seq<Fragment>)
    ensures |fs| == |ts|
    ensures forall i :: 0 <= i < |ts| ==> fs[i] == Delta(Some(ts[i]))
  {
    if ts == [] then [] else [Delta(Some(ts[0]))] + Deltas(ts[1..])
  }

  /** A stream of content chunks is answered by their concatenation. */
  lemma {:induction false} DeltasAnswer(ts: seq<string>)
    ensures Answer(Deltas(ts)) == Flatten(ts)
    ensures EndsNormally(Deltas(ts))
  {
    if ts != [] {
      DeltasAnswer(ts[1..]);
      AnswerCons(Deltas(ts));
      assert Deltas(ts)[1..] == Deltas(ts[1..]);
    }
  }

  /** How the answer is split into chunks is invisible: the recorded session and
      the echoed text are those of one chunk holding the whole answer, as a
      non-streaming reply would give. */
  lemma ChunkingIsInvisible(s: Session, ts: seq<string>)
    ensures Consume(s, Deltas(ts)).session == Consume(s, [Delta(Some(Flatten(ts)))]).session
    ensures Written(Consume(s, Deltas(ts)).effects) == Flatten(ts) + "\n"
  {
    DeltasAnswer(ts);
    EchoIsAnswer(s, Deltas(ts));
    DeltasAnswer([Flatten(ts)]);
    assert Deltas([Flatten(ts)]) == [Delta(Some(Flatten(ts)))];
    assert Flatten([Flatten(ts)]) == Flatten(ts);
  }
}
