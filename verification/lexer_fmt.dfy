/** The lexer driver (lexer/fmt.py): feeds one event per character and one
    end-of-input event, and cuts the text into runs wherever the label of
    the state changes. */
module LexerFmt {
  import opened Common
  import opened LexerUtil
  import opened LexerStates

  /** `FiniteStateMachine`: the current state, the flushed runs, and the
      one-character strings of the run in progress. */
  datatype Machine = Machine(state: LexState, partition: seq<Run>, series: seq<string>)

  /** A fresh machine in state `s` with nothing recorded. */
  function Start(s: LexState): Machine {
    Machine(s, [], [])
  }

  /** Everything a machine has recorded, flushed or not, in reading order. */
  function Recorded(m: Machine): string {
    RunsText(m.partition) + Join(m.series)
  }

  /** `step`: move to the next state; on end of input or a change of label,
      flush the run in progress under the previous state's label; then
      start or extend the run with the character met. */
  function Step(m: Machine, e: CharEvent): (r: Machine)
    ensures r.state == OnEvent(m.state, e)
    ensures Recorded(r) == Recorded(m) + e.Char()
    ensures |m.partition| <= |r.partition| <= |m.partition| + 1
    ensures r.partition[..|m.partition|] == m.partition
    ensures |r.partition| == |m.partition| + 1
        <==> e.Eof() || m.state.Type() != OnEvent(m.state, e).Type()
    ensures |r.partition| == |m.partition| + 1
        ==> r.partition[|m.partition|] == Run(m.state.Type(), m.series)
  {
    var next := OnEvent(m.state, e);
    if e.Eof() || m.state.Type() != next.Type() then
      var r := Machine(next, m.partition + [Run(m.state.Type(), m.series)], [e.Char()]);
      assert (m.partition + [Run(m.state.Type(), m.series)])[..|m.partition|] == m.partition;
      assert Join([e.Char()]) == e.Char() by {
        assert [e.Char()][..0] == [];
      }
      r
    else
      var r := Machine(next, m.partition, m.series + [e.Char()]);
      assert (m.series + [e.Char()])[..|m.series|] == m.series;
      r
  }

  /** The machine after stepping through `events` in order. */
  function Process(m: Machine, events: seq<CharEvent>): Machine {
    if |events| == 0 then m else Step(Process(m, events[..|events| - 1]), events[|events| - 1])
  }

  /** The events `process_string` feeds: one per character, in order, then
      the end-of-input event at index `len(s)` when `end` is set. */
  function Events(s: string, end: bool): (r: seq<CharEvent>)
    ensures |r| == |s| + (if end then 1 else 0)
    ensures forall k :: 0 <= k < |s| ==> !r[k].Eof() && r[k].Char() == [s[k]]
    ensures end ==> r[|s|].Eof() && r[|s|].Char() == ""
  {
    seq(|s| + (if end then 1 else 0), k requires 0 <= k => CharEvent(k, s))
  }

  /** `process_string(s, end)` run on machine `m`. */
  function ProcessString(m: Machine, s: string, end: bool): Machine {
    Process(m, Events(s, end))
  }

  /** The runs `process_string(s)` leaves, started from `InitialState`. */
  function Partition(s: string): seq<Run> {
    ProcessString(Start(Initial), s, true).partition
  }

  /** The lexical partition of `s`: the runs of a fresh machine started in
      `InitialState`, joined into tokens. */
  function Lex(s: string): seq<Token> {
    Build(Partition(s))
  }

  // ---------------------------------------------------------------------
  // An independent description of the partition: the label of every
  // character, read off the state the machine is in right after it.
  // ---------------------------------------------------------------------

  /** `f` applied to every non-empty prefix of `xs`, shortest first. */
  function PrefixMap<T, U>(f: seq<T> -> U, xs: seq<T>): (r: seq<U>)
    ensures |r| == |xs|
    ensures forall j :: 0 <= j < |xs| ==> r[j] == f(xs[..j + 1])
  {
    seq(|xs|, j requires 0 <= j < |xs| => f(xs[..j + 1]))
  }

  /** One more element adds `f` of the whole sequence. */
  lemma PrefixMapSnoc<T, U>(f: seq<T> -> U, xs: seq<T>)
    requires |xs| > 0
    ensures PrefixMap(f, xs) == PrefixMap(f, xs[..|xs| - 1]) + [f(xs)]
  {
    var init := xs[..|xs| - 1];
    forall j | 0 <= j < |init|
      ensures PrefixMap(f, xs)[j] == PrefixMap(f, init)[j]
    {
      assert xs[..j + 1] == init[..j + 1];
    }
    assert xs[..|xs|] == xs;
  }

  /** The labels of the states reached from `s0` after each event of
      `events`: entry `j` is the label after feeding events `0..j`. */
  function StateLabels(s0: LexState, events: seq<CharEvent>): (r: seq<Label>)
    ensures |r| == |events|
  {
    PrefixMap((xs: seq<CharEvent>) => Feed(s0, xs).Type(), events)
  }

  /** The label the lexer gives each character of `s`, in order. */
  function LabelTrace(s: string): (r: seq<Label>)
    ensures |r| == |s|
  {
    StateLabels(Initial, Events(s, false))
  }

  /** The labels a run sequence spells out, one per recorded event. */
  function Expand(runs: seq<Run>): seq<Label> {
    if |runs| == 0 then []
    else Expand(runs[..|runs| - 1]) + Repeat(runs[|runs| - 1].state, |runs[|runs| - 1].series|)
  }

  /** The labels a token sequence spells out, one per character of text. */
  function TokenLabels(ts: seq<Token>): seq<Label> {
    if |ts| == 0 then []
    else TokenLabels(ts[..|ts| - 1]) + Repeat(ts[|ts| - 1].state, |ts[|ts| - 1].value|)
  }

  /** The text a sequence of events meets, one character (or "" at the end)
      per event. */
  function EventsText(events: seq<CharEvent>): string {
    if |events| == 0 then "" else EventsText(events[..|events| - 1]) + events[|events| - 1].Char()
  }

  /** None of the events is the end of input. */
  predicate NoEof(events: seq<CharEvent>) {
    forall j :: 0 <= j < |events| ==> !events[j].Eof()
  }

  /** Every entry of a series is a single character. */
  predicate Singles(series: seq<string>) {
    forall j :: 0 <= j < |series| ==> |series[j]| == 1
  }

  /** Every run of a partition records single characters. */
  predicate AllSingles(runs: seq<Run>) {
    forall j :: 0 <= j < |runs| ==> Singles(runs[j].series)
  }

  /** The shape of a finished partition: neighbouring runs carry different
      labels, every run but the first holds a character, and an empty first
      run is labelled `InitialState`. */
  predicate WellCut(runs: seq<Run>) {
    (forall j :: 0 <= j < |runs| - 1 ==> runs[j].state != runs[j + 1].state)
    && (forall j :: 1 <= j < |runs| ==> |runs[j].series| > 0)
    && (|runs| > 0 && |runs[0].series| == 0 ==> runs[0].state == InitialState)
  }

  /** The two ways a step can go, spelled out for the proofs below. */
  lemma StepCases(m: Machine, e: CharEvent)
    ensures var r := Step(m, e);
            var flush := e.Eof() || m.state.Type() != r.state.Type();
            && (flush ==> r.partition == m.partition + [Run(m.state.Type(), m.series)] && r.series == [e.Char()])
            && (!flush ==> r.partition == m.partition && r.series == m.series + [e.Char()])
  {
  }

  /** A step whose new state shows another label, or that reads the end of
      input, flushes the series in progress as a run and starts a new one. */
  lemma FlushStep(m: Machine, e: CharEvent, t: LexState)
    requires OnEvent(m.state, e) == t
    requires e.Eof() || m.state.Type() != t.Type()
    ensures Step(m, e) == Machine(t, m.partition + [Run(m.state.Type(), m.series)], [e.Char()])
  {
    StepCases(m, e);
  }

  /** A step that keeps the label extends the series in progress. */
  lemma KeepStep(m: Machine, e: CharEvent, t: LexState)
    requires OnEvent(m.state, e) == t
    requires !e.Eof() && m.state.Type() == t.Type()
    ensures Step(m, e) == Machine(t, m.partition, m.series + [e.Char()])
  {
    StepCases(m, e);
  }

  /** Appending a run keeps a partition well cut when its label differs from
      the last run's and it is non-empty or the first run under the initial
      label. */
  lemma WellCutAppend(runs: seq<Run>, run: Run)
    requires WellCut(runs)
    requires |runs| > 0 ==> runs[|runs| - 1].state != run.state
    requires |run.series| > 0 || (runs == [] && run.state == InitialState)
    ensures WellCut(runs + [run])
  {
  }

  lemma AllSinglesAppend(runs: seq<Run>, run: Run)
    requires AllSingles(runs) && Singles(run.series)
    ensures AllSingles(runs + [run])
  {
  }

  lemma ExpandAppend(runs: seq<Run>, run: Run)
    ensures Expand(runs + [run]) == Expand(runs) + Repeat(run.state, |run.series|)
  {
    assert (runs + [run])[..|runs|] == runs;
  }

  lemma RunsTextAppend(runs: seq<Run>, run: Run)
    ensures RunsText(runs + [run]) == RunsText(runs) + Join(run.series)
  {
    assert (runs + [run])[..|runs|] == runs;
  }

  /** The machine's state is the fold of the transition over the events. */
  lemma {:induction false} ProcessFollowsFeed(m: Machine, events: seq<CharEvent>)
    ensures Process(m, events).state == Feed(m.state, events)
  {
    if |events| > 0 {
      ProcessFollowsFeed(m, events[..|events| - 1]);
    }
  }

  /** The machine records exactly the text its events meet. */
  lemma {:induction false} ProcessRecords(m: Machine, events: seq<CharEvent>)
    ensures Recorded(Process(m, events)) == Recorded(m) + EventsText(events)
  {
    if |events| > 0 {
      ProcessRecords(m, events[..|events| - 1]);
    }
  }

  /** One more event adds the label of the state it leads to. */
  lemma StateLabelsSnoc(s0: LexState, events: seq<CharEvent>)
    requires |events| > 0
    ensures StateLabels(s0, events)
         == StateLabels(s0, events[..|events| - 1]) + [Feed(s0, events).Type()]
  {
    PrefixMapSnoc((xs: seq<CharEvent>) => Feed(s0, xs).Type(), events);
  }

  /** One character step extends the label of every recorded character by
      the label of the state it leads to. */
  lemma LabelsStep(m: Machine, e: CharEvent)
    requires !e.Eof()
    ensures var r := Step(m, e);
            Expand(r.partition) + Repeat(r.state.Type(), |r.series|)
            == Expand(m.partition) + Repeat(m.state.Type(), |m.series|) + [r.state.Type()]
  {
    var t := OnEvent(m.state, e);
    if m.state.Type() != t.Type() {
      FlushStep(m, e, t);
      ExpandAppend(m.partition, Run(m.state.Type(), m.series));
      assert Repeat(t.Type(), 1) == [t.Type()];
    } else {
      KeepStep(m, e, t);
      assert Repeat(m.state.Type(), |m.series| + 1) == Repeat(m.state.Type(), |m.series|) + [m.state.Type()];
    }
  }

  /** Fed only characters, a fresh machine keeps one label per event, in
      order: the flushed runs' labels followed by the current state's label
      for the run in progress. */
  lemma {:induction false} ProcessLabels(s0: LexState, events: seq<CharEvent>)
    requires NoEof(events)
    ensures var m := Process(Start(s0), events);
            Expand(m.partition) + Repeat(m.state.Type(), |m.series|) == StateLabels(s0, events)
  {
    if |events| > 0 {
      var init := events[..|events| - 1];
      ProcessLabels(s0, init);
      LabelsStep(Process(Start(s0), init), events[|events| - 1]);
      ProcessFollowsFeed(Start(s0), events);
      StateLabelsSnoc(s0, events);
    } else {
      assert StateLabels(s0, events) == [];
    }
  }

  /** Fed only characters, a fresh machine holds a run in progress exactly
      when it has met a character, flushes nothing before that, and its last
      flushed run carries a label other than the current state's. */
  lemma {:induction false} ProcessFlow(events: seq<CharEvent>)
    requires NoEof(events)
    ensures var m := Process(Start(Initial), events);
            && (|m.partition| > 0 ==> m.partition[|m.partition| - 1].state != m.state.Type())
            && (|events| > 0 <==> |m.series| > 0)
            && (|events| == 0 ==> m.partition == [] && m.state == Initial)
  {
    if |events| > 0 {
      ProcessFlow(events[..|events| - 1]);
      StepCases(Process(Start(Initial), events[..|events| - 1]), events[|events| - 1]);
    }
  }

  /** Fed only characters, a fresh machine records single characters. */
  lemma {:induction false} ProcessSingles(events: seq<CharEvent>)
    requires NoEof(events)
    ensures var m := Process(Start(Initial), events);
            AllSingles(m.partition) && Singles(m.series)
  {
    if |events| > 0 {
      var init := events[..|events| - 1];
      var e := events[|events| - 1];
      ProcessSingles(init);
      var m := Process(Start(Initial), init);
      var r := Step(m, e);
      StepCases(m, e);
      assert |e.Char()| == 1;
      if |r.partition| == |m.partition| + 1 {
        AllSinglesAppend(m.partition, Run(m.state.Type(), m.series));
      } else {
        assert r.series == m.series + [e.Char()];
      }
    }
  }

  /** Fed only characters, a fresh machine cuts its runs where the label
      changes and leaves no empty run behind except a leading one under the
      initial label. */
  lemma {:induction false} ProcessCut(events: seq<CharEvent>)
    requires NoEof(events)
    ensures WellCut(Process(Start(Initial), events).partition)
  {
    if |events| > 0 {
      var init := events[..|events| - 1];
      var e := events[|events| - 1];
      ProcessCut(init);
      ProcessFlow(init);
      var m := Process(Start(Initial), init);
      var r := Step(m, e);
      StepCases(m, e);
      if |r.partition| == |m.partition| + 1 {
        WellCutAppend(m.partition, Run(m.state.Type(), m.series));
      }
    }
  }

  lemma {:induction false} EventsTextOfChars(s: string, k: nat)
    requires k <= |s|
    ensures EventsText(Events(s, false)[..k]) == s[..k]
  {
    if k > 0 {
      EventsTextOfChars(s, k - 1);
      var evs := Events(s, false)[..k];
      assert evs[..|evs| - 1] == Events(s, false)[..k - 1];
      assert s[..k] == s[..k - 1] + [s[k - 1]];
    }
  }

  /** A run of the machine written out machine by machine: when each listed
      machine is the step of the one before it, processing the events ends
      in the last one listed. */
  lemma {:induction false} ProcessChain(m: Machine, events: seq<CharEvent>, ms: seq<Machine>)
    requires |ms| == |events| + 1 && ms[0] == m
    requires forall k :: 0 <= k < |events| ==> ms[k + 1] == Step(ms[k], events[k])
    ensures Process(m, events) == ms[|events|]
  {
    if |events| > 0 {
      ProcessChain(m, events[..|events| - 1], ms[..|events|]);
    }
  }

  /** Each event of `process_string` advances the machine by one step. */
  lemma ProcessPrefixStep(m: Machine, s: string, end: bool, k: nat)
    requires k < |Events(s, end)|
    ensures Process(m, Events(s, end)[..k + 1]) == Step(Process(m, Events(s, end)[..k]), CharEvent(k, s))
  {
    var evs := Events(s, end)[..k + 1];
    assert evs[..|evs| - 1] == Events(s, end)[..k];
  }

  /** With `end` set, the final partition is the characters' runs with the
      run in progress flushed by the end-of-input event. */
  lemma FinalFlush(s: string)
    ensures var m := Process(Start(Initial), Events(s, false));
            Partition(s) == m.partition + [Run(m.state.Type(), m.series)]
  {
    var evs := Events(s, true);
    assert evs[..|evs| - 1] == Events(s, false);
  }

  /** Read back, the partition gives the text. */
  lemma PartitionLossless(s: string)
    ensures RunsText(Partition(s)) == s
  {
    var evs := Events(s, false);
    var m := Process(Start(Initial), evs);
    FinalFlush(s);
    ProcessRecords(Start(Initial), evs);
    assert Recorded(Start(Initial)) == "";
    EventsTextOfChars(s, |s|);
    assert evs[..|s|] == evs;
    assert s[..|s|] == s;
    assert Recorded(m) == s;
    RunsTextAppend(m.partition, Run(m.state.Type(), m.series));
  }

  /** The partition labels each character as the state reached after it. */
  lemma PartitionLabels(s: string)
    ensures Expand(Partition(s)) == LabelTrace(s)
  {
    var evs := Events(s, false);
    assert NoEof(evs);
    var m := Process(Start(Initial), evs);
    FinalFlush(s);
    ProcessLabels(Initial, evs);
    ExpandAppend(m.partition, Run(m.state.Type(), m.series));
  }

  /** Neighbouring runs of the partition differ in label, every run after the
      first is non-empty, an empty first run is the `InitialState` run the
      first flush can leave, and every run records single characters. */
  lemma PartitionShape(s: string)
    ensures WellCut(Partition(s)) && AllSingles(Partition(s))
  {
    var evs := Events(s, false);
    assert NoEof(evs);
    var m := Process(Start(Initial), evs);
    var run := Run(m.state.Type(), m.series);
    FinalFlush(s);
    ProcessFlow(evs);
    ProcessCut(evs);
    WellCutAppend(m.partition, run);
    ProcessSingles(evs);
    AllSinglesAppend(m.partition, run);
  }

  lemma {:induction false} JoinSingles(series: seq<string>)
    requires Singles(series)
    ensures |Join(series)| == |series|
  {
    if |series| > 0 {
      JoinSingles(series[..|series| - 1]);
    }
  }

  lemma {:induction false} BuildLabels(runs: seq<Run>)
    requires AllSingles(runs)
    ensures TokenLabels(Build(runs)) == Expand(runs)
  {
    if |runs| > 0 {
      BuildLabels(runs[..|runs| - 1]);
      assert Build(runs)[..|runs| - 1] == Build(runs[..|runs| - 1]);
      JoinSingles(runs[|runs| - 1].series);
    }
  }

  /** The lexer is lossless, labels every character as the state machine
      does, never puts two neighbouring tokens under the same label, and
      gives every token but a leading `InitialState` one some text. */
  lemma LexCharacterised(s: string)
    ensures Text(Lex(s)) == s
    ensures TokenLabels(Lex(s)) == LabelTrace(s)
    ensures forall j :: 0 <= j < |Lex(s)| - 1 ==> Lex(s)[j].state != Lex(s)[j + 1].state
    ensures forall j :: 1 <= j < |Lex(s)| ==> Lex(s)[j].value != ""
    ensures |Lex(s)| > 0 && Lex(s)[0].value == "" ==> Lex(s)[0].state == InitialState
  {
    var runs := Partition(s);
    PartitionLossless(s);
    PartitionLabels(s);
    PartitionShape(s);
    BuildLossless(runs);
    BuildLabels(runs);
    forall j | 0 <= j < |runs|
      ensures |Join(runs[j].series)| == |runs[j].series|
    {
      JoinSingles(runs[j].series);
    }
  }
}
