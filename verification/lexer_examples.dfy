/** Worked partitions of short texts, following the lexer's tests
    (fmt/test_fmt.py): keywords are cut out of longer words and neighbouring
    closing brackets share one run. Each example lists the machine after
    every event and checks each step on its own. */
module LexerExamples {
  import opened Common
  import opened LexerUtil
  import opened LexerStates
  import opened LexerFmt

  /** The state a `}` leads to from `InitialState`. */
  const Closing := Skip(Initial, true, 1, Some(ClosedBracketState), true)

  /** The machines `process_string("}}")` passes through. */
  const BracketMachines: seq<Machine> := [
    Start(Initial),
    Machine(Closing, [Run(InitialState, [])], ["}"]),
    Machine(Closing, [Run(InitialState, [])], ["}", "}"]),
    Machine(Initial, [Run(InitialState, []), Run(ClosedBracketState, ["}", "}"])], [""])
  ]

  lemma BracketOpens(s: string)
    requires s == "}}"
    ensures BracketMachines[1] == Step(BracketMachines[0], CharEvent(0, s))
  {
    var e := CharEvent(0, s);
    assert e.Is('}') && e.Char() == "}";
    assert OnEvent(Initial, e) == Closing;
    FlushStep(BracketMachines[0], e, Closing);
  }

  lemma BracketRepeats(s: string)
    requires s == "}}"
    ensures BracketMachines[2] == Step(BracketMachines[1], CharEvent(1, s))
  {
    var e := CharEvent(1, s);
    assert e.Is('}') && e.Char() == "}";
    assert InitialOnEvent(e) == Closing;
    assert OnEvent(Closing, e) == Closing;
    KeepStep(BracketMachines[1], e, Closing);
  }

  lemma BracketEnd(s: string)
    requires s == "}}"
    ensures BracketMachines[3] == Step(BracketMachines[2], CharEvent(2, s))
  {
    var e := CharEvent(2, s);
    assert e.Eof() && e.Char() == "";
    UnrecognisedStays(e);
    assert OnEvent(Closing, e) == Initial;
    FlushStep(BracketMachines[2], e, Initial);
  }

  lemma BracketPartition(s: string)
    requires s == "}}"
    ensures Partition(s) == BracketMachines[3].partition
  {
    var evs := Events(s, true);
    assert evs == [CharEvent(0, s), CharEvent(1, s), CharEvent(2, s)];
    BracketOpens(s);
    BracketRepeats(s);
    BracketEnd(s);
    assert forall k :: 0 <= k < 3 ==> BracketMachines[k + 1] == Step(BracketMachines[k], evs[k]) by {
      forall k | 0 <= k < 3
        ensures BracketMachines[k + 1] == Step(BracketMachines[k], evs[k])
      {
        assert k == 0 || k == 1 || k == 2;
      }
    }
    ProcessChain(Start(Initial), evs, BracketMachines);
  }

  /** `}}` is one `ClosedBracketState` token: the lexer ignores the
      `separated` flag of the bracket skip, so the second `}` continues the
      run of the first. */
  lemma ClosingBracketsMerge(s: string)
    requires s == "}}"
    ensures Lex(s) == [Token(InitialState, ""), Token(ClosedBracketState, "}}")]
  {
    BracketPartition(s);
    assert ["}", "}"] == Characters("}}");
    JoinCharacters("}}");
  }

  /** The machines `process_string("classes")` passes through. */
  const ClassesMachines: seq<Machine> := [
    Start(Initial),
    Machine(Pretend(IdentifierState, 5), [Run(InitialState, [])], ["c"]),
    Machine(Pretend(IdentifierState, 4), [Run(InitialState, [])], ["c", "l"]),
    Machine(Pretend(IdentifierState, 3), [Run(InitialState, [])], ["c", "l", "a"]),
    Machine(Pretend(IdentifierState, 2), [Run(InitialState, [])], ["c", "l", "a", "s"]),
    Machine(Pretend(IdentifierState, 1), [Run(InitialState, [])], ["c", "l", "a", "s", "s"]),
    Machine(Name, [Run(InitialState, []), Run(IdentifierState, ["c", "l", "a", "s", "s"])], ["e"]),
    Machine(Name, [Run(InitialState, []), Run(IdentifierState, ["c", "l", "a", "s", "s"])], ["e", "s"]),
    Machine(Initial, [Run(InitialState, []), Run(IdentifierState, ["c", "l", "a", "s", "s"]), Run(NameState, ["e", "s"])], [""])
  ]

  lemma ClassesKeyword(s: string)
    requires s == "classes"
    ensures ClassesMachines[1] == Step(ClassesMachines[0], CharEvent(0, s))
  {
    var e := CharEvent(0, s);
    assert e.IsStartOf(Keywords[0].0) by {
      assert s[0..5] == "class";
    }
    KeywordRecognised(e, 0);
    assert !e.Eof() && e.Char() == "c";
    FlushStep(ClassesMachines[0], e, Pretend(IdentifierState, 5));
  }

  /** A keyword skip with more than one character left swallows the event
      into the run in progress. */
  lemma SkipStep(m: Machine, shown: Label, count: int, e: CharEvent)
    requires m.state == Pretend(shown, count) && count > 1 && !e.Eof()
    ensures Step(m, e) == Machine(Pretend(shown, count - 1), m.partition, m.series + [e.Char()])
  {
    StepCases(m, e);
  }

  lemma ClassesSkip(s: string, k: nat)
    requires s == "classes" && 1 <= k < 5
    ensures ClassesMachines[k + 1] == Step(ClassesMachines[k], CharEvent(k, s))
  {
    var e := CharEvent(k, s);
    var m := ClassesMachines[k];
    var next := ClassesMachines[k + 1];
    assert m.state == Pretend(IdentifierState, 6 - k) && next.state == Pretend(IdentifierState, 5 - k);
    assert next.partition == m.partition;
    assert e.Char() == [s[k]];
    assert next.series == m.series + [e.Char()] by {
      assert k == 1 || k == 2 || k == 3 || k == 4;
    }
    SkipStep(m, IdentifierState, 6 - k, e);
  }

  /** No keyword starts at the `e` of `classes`: only two characters are
      left there. */
  lemma ClassesTailIsName(s: string)
    requires s == "classes"
    ensures OnEvent(Pretend(IdentifierState, 1), CharEvent(5, s)) == Name
  {
    var e := CharEvent(5, s);
    KeywordLengths(e);
    PlainWordIsName(e);
  }

  lemma ClassesNameStarts(s: string)
    requires s == "classes"
    ensures ClassesMachines[6] == Step(ClassesMachines[5], CharEvent(5, s))
  {
    var e := CharEvent(5, s);
    ClassesTailIsName(s);
    assert !e.Eof() && e.Char() == "e";
    FlushStep(ClassesMachines[5], e, Name);
  }

  lemma ClassesNameGoesOn(s: string)
    requires s == "classes"
    ensures ClassesMachines[7] == Step(ClassesMachines[6], CharEvent(6, s))
  {
    var e := CharEvent(6, s);
    assert OnEvent(Name, e) == Name;
    assert !e.Eof() && e.Char() == "s";
    KeepStep(ClassesMachines[6], e, Name);
  }

  lemma ClassesEnd(s: string)
    requires s == "classes"
    ensures ClassesMachines[8] == Step(ClassesMachines[7], CharEvent(7, s))
  {
    var e := CharEvent(7, s);
    assert e.Eof() && e.Char() == "";
    UnrecognisedStays(e);
    assert OnEvent(Name, e) == Initial;
    FlushStep(ClassesMachines[7], e, Initial);
  }

  lemma ClassesPartition(s: string)
    requires s == "classes"
    ensures Partition(s) == ClassesMachines[8].partition
  {
    forall k | 0 <= k < 8
      ensures ClassesMachines[k + 1] == Step(ClassesMachines[k], Events(s, true)[k])
    {
      assert Events(s, true)[k] == CharEvent(k, s);
      if k == 0 {
        ClassesKeyword(s);
      } else if k < 5 {
        ClassesSkip(s, k);
      } else if k == 5 {
        ClassesNameStarts(s);
      } else if k == 6 {
        ClassesNameGoesOn(s);
      } else {
        ClassesEnd(s);
      }
    }
    ProcessChain(Start(Initial), Events(s, true), ClassesMachines);
  }

  /** `classes` is cut into the keyword `class` and the name `es`: keywords
      are recognised by lookahead with no check that the word ends. */
  lemma KeywordCutFromWord(s: string)
    requires s == "classes"
    ensures Lex(s) == [Token(InitialState, ""), Token(IdentifierState, "class"), Token(NameState, "es")]
  {
    ClassesPartition(s);
    assert ["c", "l", "a", "s", "s"] == Characters("class");
    assert ["e", "s"] == Characters("es");
    JoinCharacters("class");
    JoinCharacters("es");
  }
}
