/** A whole interactive session: each input line is handled, and when it starts
    a completion, the completion runs to its end before the next line is read. */
module Interaction {
  import opened SessionState
  import opened CommandLoop
  import opened Completion

  /** An input line together with the response its request would receive; the
      response is ignored for lines that request nothing. */
  datatype Exchange = Exchange(line: string, response: Response)

  /** One line and, for a prompt, the completion it starts. The history keeps
      its entries and gains at most one, and only a prompt line can add it. */
  function Interact(s: Session, x: Exchange): (o: Outcome)
    requires !s.terminated
    ensures s.history <= o.session.history
    ensures |o.session.history| <= |s.history| + 1
    ensures |o.session.history| > |s.history| ==> Classify(x.line).Ask?
  {
    var o := Step(s, x.line);
    if Classify(x.line).Ask? then
      var r := Respond(o.session, x.response);
      Outcome(r.session, o.effects + r.effects)
    else o
  }

  /** The lines in order, until the process exits. Once the session has
      terminated nothing more happens, and the history never loses an entry. */
  function Run(s: Session, xs: seq<Exchange>): (o: Outcome)
    ensures s.terminated ==> o == Outcome(s, [])
    ensures s.history <= o.session.history
    decreases |xs|
  {
    if xs == [] || s.terminated then Outcome(s, [])
    else
      var o := Interact(s, xs[0]);
      var rest := Run(o.session, xs[1..]);
      Outcome(rest.session, o.effects + rest.effects)
  }

  /** Over any run the history gains at most one entry per line. */
  lemma {:induction false} RunHistoryGrows(s: Session, xs: seq<Exchange>)
    ensures |Run(s, xs).session.history| <= |s.history| + |xs|
    decreases |xs|
  {
    if xs != [] && !s.terminated {
      RunHistoryGrows(Interact(s, xs[0]).session, xs[1..]);
    }
  }

  /** The stream of a response records its exchange. */
  predicate Clean(r: Response) {
    r.Stream? && Records(r.fragments)
  }

  /** The prompt lines among the exchanges, in order. */
  function AskLines(xs: seq<Exchange>): seq<string> {
    if xs == [] then []
    else (if Classify(xs[0].line).Ask? then [xs[0].line] else []) + AskLines(xs[1..])
  }

  function Prompts(turns: seq<Turn>): (ps: seq<string>)
    ensures |ps| == |turns|
    ensures forall i :: 0 <= i < |turns| ==> ps[i] == turns[i].prompt
  {
    if turns == [] then [] else [turns[0].prompt] + Prompts(turns[1..])
  }

  lemma {:induction false} PromptsAppend(a: seq<Turn>, b: seq<Turn>)
    ensures Prompts(a + b) == Prompts(a) + Prompts(b)
  {
  }

  /** One clean exchange records its line if, and only if, it is a prompt. */
  lemma InteractRecordsPrompt(s: Session, x: Exchange)
    requires !s.terminated
    requires x.line != "exit" && x.line != "quit"
    requires Clean(x.response)
    ensures var t := Interact(s, x).session;
      && !t.terminated
      && s.history <= t.history
      && Prompts(t.history[|s.history|..]) == (if Classify(x.line).Ask? then [x.line] else [])
  {
  }

  /** When no line exits and every request streams to a recorded end, each
      prompt line is recorded once, in order, with its raw text, and nothing
      else is recorded. */
  lemma {:induction false} RunRecordsEachPrompt(s: Session, xs: seq<Exchange>)
    requires !s.terminated
    requires forall i :: 0 <= i < |xs| ==> xs[i].line != "exit" && xs[i].line != "quit"
    requires forall i :: 0 <= i < |xs| ==> Clean(xs[i].response)
    ensures var h := Run(s, xs).session.history;
      && s.history <= h
      && Prompts(h[|s.history|..]) == AskLines(xs)
    ensures !Run(s, xs).session.terminated
    decreases |xs|
  {
    if xs != [] {
      var t := Interact(s, xs[0]).session;
      InteractRecordsPrompt(s, xs[0]);
      RunRecordsEachPrompt(t, xs[1..]);
      var h := Run(s, xs).session.history;
      assert h == Run(t, xs[1..]).session.history;
      assert h[|s.history|..] == t.history[|s.history|..] + h[|t.history|..];
      PromptsAppend(t.history[|s.history|..], h[|t.history|..]);
    }
  }

  /** From a freshly constructed session, under the same conditions, the saved
      dialogue holds exactly one turn per prompt line, in order. The session is
      a parameter equal to `Initial(config)` rather than written in place: with
      the constructor applied inside `Run`, the solver unfolds far more. */
  lemma FreshRunRecordsEachPrompt(config: map<string, string>, s: Session, xs: seq<Exchange>)
    requires s == Initial(config)
    requires forall i :: 0 <= i < |xs| ==> xs[i].line != "exit" && xs[i].line != "quit"
    requires forall i :: 0 <= i < |xs| ==> Clean(xs[i].response)
    ensures Prompts(Run(s, xs).session.history) == AskLines(xs)
  {
    RunRecordsEachPrompt(s, xs);
    var h := Run(s, xs).session.history;
    assert h[|s.history|..] == h;
  }
}
