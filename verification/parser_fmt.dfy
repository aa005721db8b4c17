/** The syntactic driver (parser/fmt.py): feeds the lexical tokens through
    the syntactic states, cuts the token stream into labelled runs and
    resynchronises after a declaration dies. */
module ParserFmt {
  import opened Common
  import Lexical = LexerUtil
  import opened ParserStates

  /** A run of the syntactic partition: its label and its tokens. */
  datatype SynRun = SynRun(state: SynLabel, series: seq<Lexical.Token>)

  /** `ParserFiniteStateMachine`'s fields: the current state, the runs
      flushed so far and the tokens of the run in progress. */
  datatype PMachine = PMachine(state: PState, partition: seq<SynRun>, series: seq<Lexical.Token>)

  /** A fresh machine in the initial state. */
  function Start(): PMachine {
    PMachine(Initial, [], [])
  }

  /** The transition the driver runs: `state.on_event`. The driver is
      written for any transition; `ProcessTokens` runs it with `OnEvent`. */
  type Transition = (PState, TokenEvent) -> Result<PState, Fault>

  /** What the driver needs of a transition: from a live state it fails
      only on a missing lookahead, and what it returns is live unless it
      reports `DeadState`. */
  ghost predicate Sound(delta: Transition) {
    forall s: PState, e: TokenEvent :: SoundAt(delta, s, e)
  }

  /** `Sound` at one state and event. */
  ghost predicate SoundAt(delta: Transition, s: PState, e: TokenEvent) {
    Live(s) ==>
      (delta(s, e).Err? ==> delta(s, e).error == EmptyLookahead)
      && (delta(s, e).Ok? ==> (Live(delta(s, e).value) <==> delta(s, e).value.Type() != DeadState))
  }

  /** The syntactic states make a sound transition. */
  lemma OnEventSound()
    ensures Sound(OnEvent)
  {
    forall s: PState, e: TokenEvent
      ensures SoundAt(OnEvent, s, e)
    {
      if Live(s) {
        LiveTransitions(s, e);
      }
    }
  }

  /** The tokens a run sequence holds, in order. */
  function Flatten(runs: seq<SynRun>): seq<Lexical.Token> {
    if |runs| == 0 then [] else Flatten(runs[..|runs| - 1]) + runs[|runs| - 1].series
  }

  /** Every token the machine holds, flushed or not. */
  function Held(m: PMachine): seq<Lexical.Token> {
    Flatten(m.partition) + m.series
  }

  lemma FlattenSnoc(runs: seq<SynRun>, run: SynRun)
    ensures Flatten(runs + [run]) == Flatten(runs) + run.series
  {
    assert (runs + [run])[..|runs|] == runs;
  }

  /** `step`: move to the next state, flush the run in progress under the
      previous state's label when the label changes or the new state stands
      alone, then add the token to the run in progress. No token is lost or
      added, and flushed runs stay flushed. */
  function Step(delta: Transition, m: PMachine, e: TokenEvent): (r: Result<PMachine, Fault>)
    ensures r.Err? <==> delta(m.state, e).Err?
    ensures r.Err? ==> r.error == delta(m.state, e).error
    ensures r.Ok? ==> r.value.state == delta(m.state, e).value
    ensures r.Ok? ==> Held(r.value) == Held(m) + [e.token]
    ensures r.Ok? && |m.partition| > 0 ==> |r.value.partition| > 0 && r.value.partition[0] == m.partition[0]
  {
    var next :- delta(m.state, e);
    if next.Separated() || next.Type() != m.state.Type() then
      FlattenSnoc(m.partition, SynRun(m.state.Type(), m.series));
      Ok(PMachine(next, m.partition + [SynRun(m.state.Type(), m.series)], [e.token]))
    else
      Ok(PMachine(next, m.partition, m.series + [e.token]))
  }

  /** The flush rule of `step`: the partition grows by the run in progress,
      under the previous state's label, exactly when the label changes or
      the new state is separated; otherwise only the run in progress grows. */
  lemma StepFlushRule(delta: Transition, m: PMachine, e: TokenEvent)
    requires Step(delta, m, e).Ok?
    ensures var r := Step(delta, m, e).value;
      var cut := r.state.Separated() || r.state.Type() != m.state.Type();
      && (cut ==> r.partition == m.partition + [SynRun(m.state.Type(), m.series)] && r.series == [e.token])
      && (!cut ==> r.partition == m.partition && r.series == m.series + [e.token])
  {
  }

  /** A run resynchronisation stops at: an empty run, or one that opens
      with a brace or a delimiter. */
  predicate Anchored(run: SynRun) {
    |run.series| == 0
    || run.series[0].state in {Lexical.OpenBracketState, Lexical.ClosedBracketState, Lexical.DelimiterState}
  }

  /** `_remove_states_until_delimiter`: drop trailing runs back to the last
      anchored one. */
  function RemoveUntilDelimiter(p: seq<SynRun>): (r: seq<SynRun>)
    ensures |r| <= |p| && r == p[..|r|]
    ensures |r| == 0 || Anchored(r[|r| - 1])
    ensures forall k :: |r| <= k < |p| ==> !Anchored(p[k])
  {
    if |p| == 0 || Anchored(p[|p| - 1]) then p
    else RemoveUntilDelimiter(p[..|p| - 1])
  }

  /** The machine `process_tokens` resets to after a declaration dies: the
      dead run is added, trailing runs are dropped back to an anchored one,
      and the initial state starts over with an empty run. */
  function Resync(m: PMachine): (r: PMachine)
    ensures r.state == Initial && r.series == []
    ensures |m.partition| > 0 && Anchored(m.partition[0]) ==> |r.partition| > 0 && r.partition[0] == m.partition[0]
  {
    PMachine(Initial, RemoveUntilDelimiter(m.partition + [SynRun(DeadState, m.series)]), [])
  }

  /** The result of `process_tokens`, with two counts the source does not
      keep: how many times `step` ran and how many declarations died. */
  datatype Outcome = Outcome(partition: seq<SynRun>, feeds: nat, resyncs: nat)

  /** The run that is always first: the empty initial one the first step
      flushes. */
  const Opening := SynRun(InitialState, [])

  /** The event for the token at `i`, with every later token as lookahead. */
  function EventAt(ts: seq<Lexical.Token>, i: nat): TokenEvent
    requires i < |ts|
  {
    TokenEvent(ts[i], ts[i + 1..])
  }

  /** The loop of `process_tokens` from token `i` on. `prevInitial` says
      whether the state after the previous round reported `InitialState`;
      a token that kills the machine is fed again from the initial state
      unless it was already fed there. Each token is fed at least once and
      at most twice, so the loop ends, and every resynchronisation costs a
      feed. A partition that opens with the empty initial run keeps it to
      the end: steps only append, and resynchronisation stops at an empty
      run. */
  function Loop(delta: Transition, m: PMachine, ts: seq<Lexical.Token>, i: nat, prevInitial: bool,
                feeds: nat, resyncs: nat): (r: Result<Outcome, Fault>)
    requires Sound(delta)
    requires i <= |ts|
    requires Live(m.state)
    ensures r.Err? ==> r.error == EmptyLookahead
    ensures r.Ok? ==> feeds + (|ts| - i) <= r.value.feeds
    ensures r.Ok? ==> r.value.feeds <= feeds + 2 * (|ts| - i) - (if prevInitial && i < |ts| then 1 else 0)
    ensures r.Ok? ==> resyncs <= r.value.resyncs && r.value.resyncs - resyncs <= r.value.feeds - feeds
    ensures r.Ok? && |m.partition| > 0 && m.partition[0] == Opening ==>
      |r.value.partition| > 0 && r.value.partition[0] == Opening
    decreases 2 * (|ts| - i) + (if prevInitial then 0 else 1)
  {
    if i == |ts| then
      Ok(Outcome(m.partition + [SynRun(m.state.Type(), m.series)], feeds, resyncs))
    else
      assert SoundAt(delta, m.state, EventAt(ts, i));
      var m' :- Step(delta, m, EventAt(ts, i));
      if m'.state.Type() == DeadState then
        Loop(delta, Resync(m'), ts, if prevInitial then i + 1 else i, true, feeds + 1, resyncs + 1)
      else
        Loop(delta, m', ts, i + 1, m'.state.Type() == InitialState, feeds + 1, resyncs)
  }

  /** One round of the loop: a fault ends it, a dead state resynchronises
      (moving on only if the token was already fed from the initial state),
      anything else moves on to the next token. */
  lemma LoopRound(delta: Transition, m: PMachine, ts: seq<Lexical.Token>, i: nat, prevInitial: bool,
                  feeds: nat, resyncs: nat)
    requires Sound(delta) && i < |ts| && Live(m.state)
    ensures SoundAt(delta, m.state, EventAt(ts, i))
    ensures var step := Step(delta, m, EventAt(ts, i));
      var r := Loop(delta, m, ts, i, prevInitial, feeds, resyncs);
      && (step.Err? ==> r == Err(step.error))
      && (step.Ok? && step.value.state.Type() == DeadState ==>
            r == Loop(delta, Resync(step.value), ts, if prevInitial then i + 1 else i, true, feeds + 1, resyncs + 1))
      && (step.Ok? && step.value.state.Type() != DeadState ==>
            Live(step.value.state) &&
            r == Loop(delta, step.value, ts, i + 1, step.value.state.Type() == InitialState, feeds + 1, resyncs))
  {
  }

  lemma AppendNext<T>(held: seq<T>, ts: seq<T>, i: nat)
    requires i < |ts|
    ensures (held + [ts[i]]) + ts[i + 1..] == held + ts[i..]
  {
    assert ts[i..] == [ts[i]] + ts[i + 1..];
  }

  /** When no declaration dies, every token is fed exactly once and the
      runs the loop ends with hold the tokens already held followed by the
      rest of the input, in order. */
  lemma {:induction false} LoopLossless(delta: Transition, m: PMachine, ts: seq<Lexical.Token>, i: nat,
                                        prevInitial: bool, feeds: nat, resyncs: nat)
    requires Sound(delta) && i <= |ts| && Live(m.state)
    ensures var r := Loop(delta, m, ts, i, prevInitial, feeds, resyncs);
      r.Ok? && r.value.resyncs == resyncs ==>
        r.value.feeds == feeds + (|ts| - i) && Flatten(r.value.partition) == Held(m) + ts[i..]
    decreases |ts| - i
  {
    if i == |ts| {
      FlattenSnoc(m.partition, SynRun(m.state.Type(), m.series));
      assert ts[i..] == [];
    } else {
      LoopRound(delta, m, ts, i, prevInitial, feeds, resyncs);
      var step := Step(delta, m, EventAt(ts, i));
      if step.Ok? && step.value.state.Type() != DeadState {
        var m' := step.value;
        var r := Loop(delta, m', ts, i + 1, m'.state.Type() == InitialState, feeds + 1, resyncs);
        LoopLossless(delta, m', ts, i + 1, m'.state.Type() == InitialState, feeds + 1, resyncs);
        if r.Ok? && r.value.resyncs == resyncs {
          assert Held(m') == Held(m) + [ts[i]];
          AppendNext(Held(m), ts, i);
        }
      }
    }
  }

  /** `process_tokens` on a fresh machine: it ends after at most two feeds
      per token, fails only on a lookahead past the last token, and when no
      declaration dies its runs hold exactly the input tokens. */
  function ProcessTokens(ts: seq<Lexical.Token>): (r: Result<Outcome, Fault>)
    ensures r.Err? ==> r.error == EmptyLookahead
    ensures r.Ok? ==> |ts| <= r.value.feeds <= 2 * |ts|
    ensures r.Ok? && r.value.resyncs == 0 ==> r.value.feeds == |ts| && Flatten(r.value.partition) == ts
  {
    OnEventSound();
    LoopLossless(OnEvent, Start(), ts, 0, false, 0, 0);
    Loop(OnEvent, Start(), ts, 0, false, 0, 0)
  }

  /** Whatever the tokens, the syntactic partition opens with the empty
      initial run: the first step always leaves the initial state, and
      resynchronisation stops at an empty run. */
  lemma ProcessOpens(ts: seq<Lexical.Token>)
    ensures ProcessTokens(ts).Ok? ==>
      |ProcessTokens(ts).value.partition| > 0 && ProcessTokens(ts).value.partition[0] == Opening
  {
    OnEventSound();
    if |ts| > 0 {
      var e := EventAt(ts, 0);
      InitialMovesOn(e);
      LoopRound(OnEvent, Start(), ts, 0, false, 0, 0);
      var step := Step(OnEvent, Start(), e);
      if step.Ok? {
        StepFlushRule(OnEvent, Start(), e);
        var m' := step.value;
        assert m'.partition == [Opening];
        if m'.state.Type() == DeadState {
          assert Resync(m').partition[0] == Opening;
        }
      }
    }
  }

  /** The first Javadoc opens a declaration with docs. */
  lemma DocOpens(ts: seq<Lexical.Token>)
    requires 1 <= |ts| && ts[0].state == Lexical.JavadocState
    ensures Step(OnEvent, Start(), EventAt(ts, 0)) == Ok(PMachine(WithDocs, [Opening], [ts[0]]))
  {
    assert OnEvent(Initial, EventAt(ts, 0)) == Ok(WithDocs);
  }

  /** A second Javadoc kills the declaration with docs. */
  lemma SecondDocDies(ts: seq<Lexical.Token>)
    requires 2 <= |ts| && ts[1].state == Lexical.JavadocState
    ensures Step(OnEvent, PMachine(WithDocs, [Opening], [ts[0]]), EventAt(ts, 1))
         == Ok(PMachine(Dead, [Opening, SynRun(DeclarationWithDocsState, [ts[0]])], [ts[1]]))
  {
    assert OnEvent(WithDocs, EventAt(ts, 1)) == Ok(Dead);
    var r := Step(OnEvent, PMachine(WithDocs, [Opening], [ts[0]]), EventAt(ts, 1));
    assert r.Ok? && r.value.state == Dead && r.value.series == [ts[1]];
    assert r.value.partition == [Opening, SynRun(DeclarationWithDocsState, [ts[0]])];
  }

  /** Resynchronisation drops the dead run and the docs run before it, and
      stops at the opening run. */
  lemma DocsDropped(first: Lexical.Token, second: Lexical.Token)
    requires first.state == Lexical.JavadocState && second.state == Lexical.JavadocState
    ensures Resync(PMachine(Dead, [Opening, SynRun(DeclarationWithDocsState, [first])], [second]))
         == PMachine(Initial, [Opening], [])
  {
    var all := [Opening, SynRun(DeclarationWithDocsState, [first]), SynRun(DeadState, [second])];
    assert [Opening, SynRun(DeclarationWithDocsState, [first])] + [SynRun(DeadState, [second])] == all;
    assert all[..2] == [Opening, SynRun(DeclarationWithDocsState, [first])];
    assert all[..2][..1] == [Opening];
  }

  /** Fed again from the initial state, the second Javadoc opens a fresh
      declaration with docs. */
  lemma DocReopens(ts: seq<Lexical.Token>)
    requires 2 <= |ts| && ts[1].state == Lexical.JavadocState
    ensures Step(OnEvent, PMachine(Initial, [Opening], []), EventAt(ts, 1))
         == Ok(PMachine(WithDocs, [Opening, Opening], [ts[1]]))
  {
    assert OnEvent(Initial, EventAt(ts, 1)) == Ok(WithDocs);
    var r := Step(OnEvent, PMachine(Initial, [Opening], []), EventAt(ts, 1));
    assert r.Ok? && r.value.state == WithDocs && r.value.series == [ts[1]];
    assert r.value.partition == [Opening, Opening];
  }

  /** `process_tokens` from token `i` on, with `on_event` as the transition. */
  function Resume(m: PMachine, ts: seq<Lexical.Token>, i: nat, prevInitial: bool, feeds: nat, resyncs: nat)
    : Result<Outcome, Fault>
    requires i <= |ts| && Live(m.state)
  {
    OnEventSound();
    Loop(OnEvent, m, ts, i, prevInitial, feeds, resyncs)
  }

  /** The first of two Javadoc comments opens a declaration with docs. */
  lemma TwoDocsFirst(ts: seq<Lexical.Token>)
    requires 2 <= |ts| && ts[0].state == Lexical.JavadocState && ts[1].state == Lexical.JavadocState
    ensures ProcessTokens(ts) == Resume(PMachine(WithDocs, [Opening], [ts[0]]), ts, 1, false, 1, 0)
  {
    OnEventSound();
    DocOpens(ts);
    LoopRound(OnEvent, Start(), ts, 0, false, 0, 0);
  }

  /** The second kills that declaration; resynchronisation drops it back
      to the opening run, and the second is due to be fed again. */
  lemma TwoDocsSecond(ts: seq<Lexical.Token>)
    requires 2 <= |ts| && ts[0].state == Lexical.JavadocState && ts[1].state == Lexical.JavadocState
    ensures Resume(PMachine(WithDocs, [Opening], [ts[0]]), ts, 1, false, 1, 0)
         == Resume(PMachine(Initial, [Opening], []), ts, 1, true, 2, 1)
  {
    OnEventSound();
    var m := PMachine(WithDocs, [Opening], [ts[0]]);
    var dead := PMachine(Dead, [Opening, SynRun(DeclarationWithDocsState, [ts[0]])], [ts[1]]);
    SecondDocDies(ts);
    assert Step(OnEvent, m, EventAt(ts, 1)) == Ok(dead);
    assert dead.state.Type() == DeadState;
    DocsDropped(ts[0], ts[1]);
    assert Resync(dead) == PMachine(Initial, [Opening], []);
    LoopRound(OnEvent, m, ts, 1, false, 1, 0);
  }

  /** Fed again from the initial state, the second opens a declaration of
      its own. */
  lemma TwoDocsThird(ts: seq<Lexical.Token>)
    requires 2 <= |ts| && ts[1].state == Lexical.JavadocState
    ensures Resume(PMachine(Initial, [Opening], []), ts, 1, true, 2, 1)
         == Resume(PMachine(WithDocs, [Opening, Opening], [ts[1]]), ts, 2, false, 3, 1)
  {
    OnEventSound();
    DocReopens(ts);
    LoopRound(OnEvent, PMachine(Initial, [Opening], []), ts, 1, true, 2, 1);
  }

  /** Two Javadoc comments in a row: the second kills the declaration the
      first opened, resynchronisation drops the first back to the opening
      run, and the second is fed again from the initial state, where it
      opens a fresh declaration on its own. Three feeds and one
      resynchronisation are spent on the two tokens. */
  lemma TwoDocs(ts: seq<Lexical.Token>)
    requires 2 <= |ts| && ts[0].state == Lexical.JavadocState && ts[1].state == Lexical.JavadocState
    ensures ProcessTokens(ts) == Resume(PMachine(WithDocs, [Opening, Opening], [ts[1]]), ts, 2, false, 3, 1)
  {
    TwoDocsFirst(ts);
    TwoDocsSecond(ts);
    TwoDocsThird(ts);
  }
}
