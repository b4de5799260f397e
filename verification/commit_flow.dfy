/** Commit-message generation: the staged diff (or a piped log entry) is
    cleaned of its provenance lines, prefixed with a fixed instruction and sent
    for completion; the reply becomes the commit message or is printed. */
module CommitFlow {
  import opened Maybe
  import opened Text
  import opened LineRegex
  import opened SessionState

  const CommitInstruction := "Generate a commit message for the following code changes:\n"
  const PipedCommitInstruction :=
    "Generate a commit message for the following code changes like this:\n"
    + "         title\n"
    + "         <empty line>\n"
    + "         description\n"
  /** The budget written into the shared settings by both commit flows. */
  const CommitMaxTokens := 500

  /** The prompt for the staged diff: the instruction, then the diff without its
      first line; a diff of a single unterminated line is sent whole. */
  function CommitPrompt(diff: string): (r: string)
    ensures CommitInstruction <= r
    ensures |r| <= |CommitInstruction| + |diff|
    ensures '\n' !in diff ==> r == CommitInstruction + diff
  {
    CommitInstruction + StripFirstLine(diff)
  }

  /** The prompt for a piped log entry: its first line, its first `Author: `
      line and its first `Date: ` line are removed, in that order. */
  function PipedCommitPrompt(data: string): (r: string)
    ensures PipedCommitInstruction <= r
    ensures |r| <= |PipedCommitInstruction| + |data|
    ensures '\n' !in data ==> r == PipedCommitInstruction + data
  {
    PipedCommitInstruction + ReplaceFirst(ReplaceFirst(StripFirstLine(data), "Author: "), "Date: ")
  }

  /** The reply to a non-streaming request: the first choice's message content,
      possibly missing, or a failure carrying the error's message and, when the
      error has a response, its status and body. */
  datatype Reply = Answered(content: Option<string>) | Failed(message: string, status: Option<int>, body: string)

  /** What the request's catch block prints. */
  function FailureLog(r: Reply): (effects: seq<Effect>)
    requires r.Failed?
    ensures r.status.Some? ==> effects == [Log(IntToString(r.status.value)), Log(r.body)]
    ensures r.status.None? ==> effects == [Log(r.message)]
  {
    if r.status.Some? then [Log(IntToString(r.status.value)), Log(r.body)] else [Log(r.message)]
  }

  /** What follows the request in `runGitCommit`: the reply's content is
      committed, and a rejected commit (`commitAccepted` false) is caught and
      printed. A failed request leaves no reply to read, so the commit call
      throws and that exception is caught and printed instead. The reply's
      content is committed once exactly when a reply arrives, and a caught
      exception is printed exactly when the request failed or the commit was
      rejected; nothing else happens. */
  function CommitAttempt(reply: Reply, commitAccepted: bool): (effects: seq<Effect>)
    ensures Committed(effects) == (if reply.Answered? then [reply.content] else [])
    ensures LogException in effects <==> reply.Failed? || !commitAccepted
    ensures forall k :: 0 <= k < |effects| ==> effects[k].Commit? || effects[k].Log? || effects[k] == LogException
    ensures reply.Failed? ==> effects == FailureLog(reply) + [LogException]
  {
    match reply
    case Answered(content) =>
      if commitAccepted then
        assert [Commit(content)][1..] == [];
        [Commit(content)]
      else
        assert [Commit(content), LogException][1..] == [LogException];
        assert [LogException][1..] == [];
        [Commit(content), LogException]
    case Failed(_, status, _) =>
      var effects := FailureLog(reply) + [LogException];
      if status.Some? then
        assert effects == [effects[0], effects[1], LogException] && effects[0].Log? && effects[1].Log?;
        CommittedNone(effects);
        effects
      else
        assert effects == [effects[0], LogException] && effects[0].Log?;
        CommittedNone(effects);
        effects
  }

  lemma {:induction false} CommittedNone(effects: seq<Effect>)
    requires forall k :: 0 <= k < |effects| ==> !effects[k].Commit?
    ensures Committed(effects) == []
  {
    if effects != [] {
      CommittedNone(effects[1..]);
    }
  }

  /** Neither the request nor the attempt saves anything or lets an exception
      escape. */
  lemma RequestThenAttempt(prompt: string, rest: seq<Effect>, e: Effect)
    requires e == SaveHistory || e == SaveConfig || e == Crash
    requires forall k :: 0 <= k < |rest| ==> rest[k].Commit? || rest[k].Log? || rest[k] == LogException
    ensures Occurrences([Request(prompt, None)] + rest, e) == 0
  {
    var effects := [Request(prompt, None)] + rest;
    assert forall k :: 0 < k < |effects| ==> effects[k] == rest[k - 1];
    Absent(effects, e);
  }

  /** A request in front commits nothing and is not an exception report. */
  lemma RequestFirst(prompt: string, rest: seq<Effect>)
    ensures Committed([Request(prompt, None)] + rest) == Committed(rest)
    ensures LogException in [Request(prompt, None)] + rest <==> LogException in rest
  {
    assert ([Request(prompt, None)] + rest)[1..] == rest;
  }

  /** `runGitCommit`. Reading the staged diff may fail (`diff` is None); that
      rejection is not caught, so the flow stops there. Otherwise the shared
      settings take the prompt and the budget, and the request goes out without
      a token limit. */
  function GitCommit(s: Session, diff: Option<string>, reply: Reply, commitAccepted: bool): (o: Outcome)
    ensures o.session.history == s.history && o.session.config == s.config
    ensures Occurrences(o.effects, SaveHistory) == 0 && Occurrences(o.effects, SaveConfig) == 0
    ensures diff.None? ==> o == Outcome(s, [Crash])
    ensures diff.Some? ==> o.effects == [Request(o.session.settingsPrompt, None)] + CommitAttempt(reply, commitAccepted)
  {
    if diff.None? then Outcome(s, [Crash])
    else
      var prompt := CommitPrompt(diff.value);
      var effects := [Request(prompt, None)] + CommitAttempt(reply, commitAccepted);
      RequestThenAttempt(prompt, CommitAttempt(reply, commitAccepted), SaveHistory);
      RequestThenAttempt(prompt, CommitAttempt(reply, commitAccepted), SaveConfig);
      Outcome(s.(settingsPrompt := prompt, maxTokens := CommitMaxTokens), effects)
  }

  /** With a readable diff the commit flow sends the diff without its first
      line, after the instruction, and sets the budget to 500; no other setting
      changes. */
  lemma GitCommitRequest(s: Session, diff: string, reply: Reply, commitAccepted: bool)
    ensures var o := GitCommit(s, Some(diff), reply, commitAccepted);
      && o.effects[0] == Request(CommitInstruction + StripFirstLine(diff), None)
      && o.session.settingsPrompt == CommitInstruction + StripFirstLine(diff)
      && o.session.maxTokens == 500
      && o.session.(settingsPrompt := s.settingsPrompt, maxTokens := s.maxTokens) == s
  {
  }

  /** With a readable diff the flow commits the reply's content, once, exactly
      when a reply arrives, and reports a caught exception exactly when the
      request failed or the commit was rejected; nothing escapes. */
  lemma GitCommitContract(s: Session, diff: string, reply: Reply, commitAccepted: bool)
    ensures var o := GitCommit(s, Some(diff), reply, commitAccepted);
      && Committed(o.effects) == (if reply.Answered? then [reply.content] else [])
      && (LogException in o.effects <==> reply.Failed? || !commitAccepted)
      && Occurrences(o.effects, Crash) == 0
  {
    var o := GitCommit(s, Some(diff), reply, commitAccepted);
    var prompt, rest := o.session.settingsPrompt, CommitAttempt(reply, commitAccepted);
    assert o.effects == [Request(prompt, None)] + rest;
    RequestFirst(prompt, rest);
    RequestThenAttempt(prompt, CommitAttempt(reply, commitAccepted), Crash);
  }

  /** The data handler of `writeGitCommitMessage` for one chunk: the reply's
      content is printed; with no content to print, the handler throws. */
  function PipedCommitChunk(s: Session, data: string, reply: Reply): (o: Outcome)
    ensures forall e :: e in o.effects ==> !e.Commit?
    ensures o.session.history == s.history
  {
    var prompt := PipedCommitPrompt(data);
    var request := [Request(prompt, None)];
    var rest := match reply
      case Answered(Some(text)) => [Write(text)]
      case Answered(None) => [Crash]
      case Failed(_, _, _) => FailureLog(reply) + [Crash];
    Outcome(s.(settingsPrompt := prompt, maxTokens := CommitMaxTokens), request + rest)
  }

  /** The piped flow never commits: it prints the reply when there is one. */
  lemma PipedCommitNeverCommits(s: Session, data: string, reply: Reply)
    ensures var o := PipedCommitChunk(s, data, reply);
      && o.effects[0] == Request(PipedCommitPrompt(data), None)
      && (forall e :: e in o.effects ==> !e.Commit?)
      && (Written(o.effects) != [] ==> reply.Answered?)
      && o.session.(settingsPrompt := s.settingsPrompt, maxTokens := s.maxTokens) == s
  {
    var o := PipedCommitChunk(s, data, reply);
    if reply.Failed? {
      assert forall e :: e in o.effects ==> !e.Write?;
      WrittenNone(o.effects);
    }
  }

  /** What the piped flow prints: the reply's content, and nothing escapes;
      without content to print, or after a failed request whose diagnostic
      lines are printed first, the handler throws. */
  lemma PipedCommitOutput(s: Session, data: string, reply: Reply)
    ensures reply.Answered? && reply.content.Some? ==>
      Written(PipedCommitChunk(s, data, reply).effects) == reply.content.value
    ensures reply.Answered? && reply.content.Some? ==> Crash !in PipedCommitChunk(s, data, reply).effects
    ensures reply == Answered(None) || reply.Failed? ==>
      var effects := PipedCommitChunk(s, data, reply).effects; effects[|effects| - 1] == Crash
    ensures reply.Failed? ==>
      var effects := PipedCommitChunk(s, data, reply).effects; effects[1..|effects| - 1] == FailureLog(reply)
  {
    var o := PipedCommitChunk(s, data, reply);
    if reply.Answered? && reply.content.Some? {
      var text := reply.content.value;
      assert o.effects == [o.effects[0], Write(text)];
      assert Written([Write(text)]) == text;
      WrittenAppend([o.effects[0]], [Write(text)]);
    }
  }

  lemma {:induction false} WrittenNone(effects: seq<Effect>)
    requires forall e :: e in effects ==> !e.Write?
    ensures Written(effects) == []
  {
    if effects != [] {
      assert effects[0] in effects;
      WrittenNone(effects[1..]);
    }
  }

  /** The staged diff's header line is dropped and the rest is sent verbatim,
      e.g. `diff --git a/x b/x\n+foo\n` is sent as the instruction and `+foo\n`. */
  lemma CommitPromptDropsHeader(header: string, body: string)
    requires forall m :: 0 <= m < |header| ==> !IsLineTerminator(header[m])
    ensures CommitPrompt(header + "\n" + body) == CommitInstruction + body
  {
    StripFirstLineOf(header, body);
  }

  lemma CommitPromptExample()
    ensures CommitPrompt("diff --git a/x b/x\n+foo\n") == CommitInstruction + "+foo\n"
  {
    assert "diff --git a/x b/x\n+foo\n" == "diff --git a/x b/x" + "\n" + "+foo\n";
    CommitPromptDropsHeader("diff --git a/x b/x", "+foo\n");
  }

  /** A log entry of the usual shape loses its header, author and date lines
      and keeps the rest verbatim. */
  lemma PipedPromptDropsProvenance(header: string, author: string, date: string, rest: string)
    requires forall m :: 0 <= m < |header| ==> !IsLineTerminator(header[m])
    requires forall m :: 0 <= m < |author| ==> !IsLineTerminator(author[m])
    requires forall m :: 0 <= m < |date| ==> !IsLineTerminator(date[m])
    ensures PipedCommitPrompt(header + "\n" + ("Author: " + author + "\n" + ("Date: " + date + "\n" + rest)))
            == PipedCommitInstruction + rest
  {
    var d := "Date: " + date + "\n" + rest;
    var a := "Author: " + author + "\n" + d;
    StripFirstLineOf(header, a);
    FirstLineMatch(a, "Author: ", author, d);
    FirstLineMatch(d, "Date: ", date, rest);
  }

  /** When the text starts with the prefix and an ordinary line, that line is the match. */
  lemma FirstLineMatch(s: string, prefix: string, line: string, rest: string)
    requires forall m :: 0 <= m < |line| ==> !IsLineTerminator(line[m])
    requires s == prefix + line + "\n" + rest
    ensures ReplaceFirst(s, prefix) == rest
  {
    var e := |prefix| + |line| + 1;
    assert s[0..|prefix|] == prefix;
    assert forall m :: |prefix| <= m < e - 1 ==> s[m] == line[m - |prefix|];
    assert IsMatch(s, prefix, 0, e);
    assert s[..0] + s[e..] == rest;
  }
}
