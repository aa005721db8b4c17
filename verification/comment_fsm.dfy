/** The prototype comment recogniser (fmt/): a four-state machine that tells
    code from line comments, block comments and documentation comments, one
    character event at a time, with a skip state that swallows the second
    character of a two-character delimiter. The character event of fmt/util.py
    is the same definition as the lexer's, `LexerUtil.CharEvent`. */
module CommentFsm {
  import opened Common
  import LexerUtil

  /** `Event(character_met, lookahead)`: the character met and the one after
      it, or `None` where a zipped text has run out. Every event the machine is
      fed holds single characters or `None`, so a character stands for the
      one-character string. */
  datatype Event = Event(met: Option<char>, lookahead: Option<char>)

  /** The states of fmt/states.py. `Skip` ignores `count` events' worth of
      input and then hands over to `next`. */
  datatype State =
    | Initial
    | Comment
    | MultilineComment
    | Javadoc
    | Skip(next: State, count: int)

  /** The character met is `c`. */
  predicate Met(e: Event, c: char) {
    e.met == Some(c)
  }

  /** The character after the one met is `c`. */
  predicate Sees(e: Event, c: char) {
    e.lookahead == Some(c)
  }

  /** `State.on_event`. `SkipState(next)` has the default count 1. */
  function OnEvent(s: State, e: Event): (r: State)
    ensures s == Initial ==> (r != Initial <==> Met(e, '/') && (Sees(e, '*') || Sees(e, '/')))
    ensures s == Initial && r != Initial ==>
      r == Skip(if Sees(e, '*') then MultilineComment else Comment, 1)
    ensures s == Comment ==> (r == Initial <==> Met(e, '\n')) && (r == Initial || r == Comment)
    ensures s == MultilineComment ==> (r == MultilineComment <==> !Met(e, '*'))
    ensures s == MultilineComment && Met(e, '*') ==>
      r == if Sees(e, '/') then Skip(Initial, 1) else Javadoc
    ensures s == Javadoc ==> (r != Javadoc <==> Met(e, '*') && Sees(e, '/'))
    ensures s == Javadoc && r != Javadoc ==> r == Skip(Initial, 1)
    ensures s.Skip? && s.count > 1 ==> r == Skip(s.next, s.count - 1)
    ensures s.Skip? && s.count <= 1 ==> r == s.next
  {
    match s
    case Initial =>
      if Met(e, '/') && Sees(e, '*') then Skip(MultilineComment, 1)
      else if Met(e, '/') && Sees(e, '/') then Skip(Comment, 1)
      else Initial
    case Comment =>
      if Met(e, '\n') then Initial else Comment
    case MultilineComment =>
      if Met(e, '*') then (if Sees(e, '/') then Skip(Initial, 1) else Javadoc)
      else MultilineComment
    case Javadoc =>
      if Met(e, '*') && Sees(e, '/') then Skip(Initial, 1) else Javadoc
    case Skip(next, count) =>
      if count > 1 then Skip(next, count - 1) else next
  }

  /** `FiniteStateMachine.on_event` applied to each event in turn: the states
      the machine holds after each event. */
  function Steps(s: State, evs: seq<Event>): (r: seq<State>)
    ensures |r| == |evs|
    ensures |evs| > 0 ==> r[0] == OnEvent(s, evs[0])
    decreases |evs|
  {
    if |evs| == 0 then []
    else
      var t := OnEvent(s, evs[0]);
      [t] + Steps(t, evs[1..])
  }

  /** Each state of a run is the previous state's answer to the next event:
      the machine keeps nothing but its current state. */
  lemma {:induction false} StepsFollowOnEvent(s: State, evs: seq<Event>)
    ensures forall k :: 0 < k < |evs| ==> Steps(s, evs)[k] == OnEvent(Steps(s, evs)[k - 1], evs[k])
    decreases |evs|
  {
    if |evs| > 0 {
      var t := OnEvent(s, evs[0]);
      StepsFollowOnEvent(t, evs[1..]);
      assert Steps(s, evs) == [t] + Steps(t, evs[1..]);
    }
  }

  /** The state before the `k`-th event of a run started in `s`. */
  function Before(s: State, evs: seq<Event>, k: nat): State
    requires k < |evs|
  {
    if k == 0 then s else Steps(s, evs)[k - 1]
  }

  /** `zip_longest(text, text[1:])` made into events: the last event has no
      lookahead. */
  function Zip(text: string): (r: seq<Event>)
    ensures |r| == |text|
    ensures forall k :: 0 <= k < |text| ==> Met(r[k], text[k])
    ensures forall k :: 0 <= k < |text| ==>
      r[k].lookahead == if k + 1 < |text| then Some(text[k + 1]) else None
  {
    seq(|text|, k requires 0 <= k < |text| =>
      Event(Some(text[k]), if k + 1 < |text| then Some(text[k + 1]) else None))
  }

  /** A zipped event carries what the character event at the same index
      reports: the character met, and the one-character lookahead wherever
      the text has a next character. */
  lemma ZipAgreesWithCharEvent(text: string, k: nat)
    requires k < |text|
    ensures Zip(text)[k].met.Some? && [Zip(text)[k].met.value] == LexerUtil.CharEvent(k, text).Char()
    ensures k + 1 < |text| ==>
      Zip(text)[k].lookahead.Some? && [Zip(text)[k].lookahead.value] == LexerUtil.CharEvent(k, text).Lookahead(1)
    ensures k + 1 == |text| ==> Zip(text)[k].lookahead == None
  {
    var e := LexerUtil.CharEvent(k, text);
    if k + 1 < |text| {
      assert e.Lookahead(1) == [text[k + 1]];
    }
  }

  /** Asking for exactly as many characters of lookahead as remain gives the
      remaining text itself: the blank padding never shows up. */
  lemma LookaheadOfRest(e: LexerUtil.CharEvent)
    ensures e.Lookahead(|e.Rest()|) == e.Rest()
  {
    var n := |e.Rest()|;
    var r := e.Lookahead(n);
    forall k | 0 <= k < n
      ensures r[k] == e.Rest()[k]
    {
      assert e.index + 1 + k < |e.text|;
    }
  }

  /** `is_start_of(s)` agrees with the character met followed by the padded
      lookahead of `|s| - 1` characters; the converse holds wherever `s` fits
      in the text, since then no padding is involved. */
  lemma StartOfAgreesWithLookahead(e: LexerUtil.CharEvent, s: string)
    requires |s| > 0
    ensures e.IsStartOf(s) ==> e.Char() + e.Lookahead(|s| - 1) == s
    ensures e.index + |s| <= |e.text| && e.Char() + e.Lookahead(|s| - 1) == s ==> e.IsStartOf(s)
  {
    var got := e.Char() + e.Lookahead(|s| - 1);
    if e.index + |s| <= |e.text| {
      assert got == e.text[e.index..e.index + |s|] by {
        forall k | 0 <= k < |s|
          ensures got[k] == e.text[e.index + k]
        {
          if k > 0 {
            assert got[k] == e.Lookahead(|s| - 1)[k - 1];
          }
        }
      }
    }
  }

  /** From `Initial`, events that never meet `/` keep the machine in
      `Initial` after every step. */
  lemma {:induction false} InitialWithoutSlash(evs: seq<Event>)
    requires forall k :: 0 <= k < |evs| ==> !Met(evs[k], '/')
    ensures forall k :: 0 <= k < |evs| ==> Steps(Initial, evs)[k] == Initial
    decreases |evs|
  {
    if |evs| > 0 {
      InitialWithoutSlash(evs[1..]);
      assert Steps(Initial, evs) == [Initial] + Steps(Initial, evs[1..]);
    }
  }

  /** A text with no `/`, zipped with its own tail, leaves the machine in
      `Initial` after every character. */
  lemma NoSlashStaysInitial(text: string)
    requires '/' !in text
    ensures forall k :: 0 <= k < |text| ==> Steps(Initial, Zip(text))[k] == Initial
  {
    var evs := Zip(text);
    forall k | 0 <= k < |evs|
      ensures !Met(evs[k], '/')
    {
      assert text[k] in text;
    }
    InitialWithoutSlash(evs);
  }

  /** A line comment lasts until a line feed is met. */
  lemma {:induction false} CommentWithoutNewline(evs: seq<Event>)
    requires forall k :: 0 <= k < |evs| ==> !Met(evs[k], '\n')
    ensures forall k :: 0 <= k < |evs| ==> Steps(Comment, evs)[k] == Comment
    decreases |evs|
  {
    if |evs| > 0 {
      CommentWithoutNewline(evs[1..]);
      assert Steps(Comment, evs) == [Comment] + Steps(Comment, evs[1..]);
    }
  }

  /** A block comment lasts until a `*` is met. */
  lemma {:induction false} MultilineWithoutStar(evs: seq<Event>)
    requires forall k :: 0 <= k < |evs| ==> !Met(evs[k], '*')
    ensures forall k :: 0 <= k < |evs| ==> Steps(MultilineComment, evs)[k] == MultilineComment
    decreases |evs|
  {
    if |evs| > 0 {
      MultilineWithoutStar(evs[1..]);
      assert Steps(MultilineComment, evs) == [MultilineComment] + Steps(MultilineComment, evs[1..]);
    }
  }

  /** A documentation comment is left only on `*` followed by `/`, and then
      for a skip that returns to `Initial`: over events without that pair the
      machine stays in `Javadoc`. */
  lemma {:induction false} JavadocUntilClose(evs: seq<Event>)
    requires forall k :: 0 <= k < |evs| ==> !(Met(evs[k], '*') && Sees(evs[k], '/'))
    ensures forall k :: 0 <= k < |evs| ==> Steps(Javadoc, evs)[k] == Javadoc
    decreases |evs|
  {
    if |evs| > 0 {
      JavadocUntilClose(evs[1..]);
      assert Steps(Javadoc, evs) == [Javadoc] + Steps(Javadoc, evs[1..]);
    }
  }

  /** `SkipState(next, n)` counts down: before the `k`-th of the first `n`
      events it is still a skip with `n - k` to go, and after the `n`-th event
      the machine is in `next`, whatever the events were. */
  lemma {:induction false} SkipCountdown(next: State, n: int, evs: seq<Event>)
    requires 1 <= n <= |evs|
    ensures forall k :: 0 <= k < n ==> Before(Skip(next, n), evs, k) == Skip(next, n - k)
    ensures Steps(Skip(next, n), evs)[n - 1] == next
    decreases n
  {
    var r := Steps(Skip(next, n), evs);
    if n > 1 {
      SkipCountdown(next, n - 1, evs[1..]);
      assert r == [Skip(next, n - 1)] + Steps(Skip(next, n - 1), evs[1..]);
      forall k | 0 < k < n
        ensures Before(Skip(next, n), evs, k) == Skip(next, n - k)
      {
        assert Before(Skip(next, n), evs, k) == Before(Skip(next, n - 1), evs[1..], k - 1);
      }
    }
  }

  /** The state a run started in `s` ends in. */
  function Last(s: State, evs: seq<Event>): State {
    if |evs| == 0 then s else Steps(s, evs)[|evs| - 1]
  }

  /** Feeding two event sequences one after the other is feeding the first
      and then the second from wherever the first left the machine. */
  lemma {:induction false} StepsAppend(s: State, a: seq<Event>, b: seq<Event>)
    ensures Steps(s, a + b) == Steps(s, a) + Steps(Last(s, a), b)
    ensures Last(s, a + b) == Last(Last(s, a), b)
    decreases |a|
  {
    if |a| > 0 {
      var t := OnEvent(s, a[0]);
      assert (a + b)[1..] == a[1..] + b;
      StepsAppend(t, a[1..], b);
      assert Steps(s, a + b) == [t] + Steps(t, a[1..] + b);
      assert Steps(s, a) == [t] + Steps(t, a[1..]);
      assert Last(s, a) == Last(t, a[1..]);
    } else {
      assert a + b == b;
    }
  }

  /** The sample the machine's tests feed it: a block comment, a line feed,
      then a line comment whose text looks like a block comment. */
  const Sample: string := "/*xxx*/\n///*yyy*/"

  /** The states the machine holds after each character of `Sample`, one
      group per stretch: the opening `/*`, the `xxx`, the closing `*/`, the
      line feed with the `//`, and the rest of the line comment. */
  const SampleTrace: seq<State> :=
    [Skip(MultilineComment, 1), MultilineComment]
    + ([MultilineComment, MultilineComment, MultilineComment]
    + ([Skip(Initial, 1), Initial]
    + ([Initial, Skip(Comment, 1), Comment]
    + [Comment, Comment, Comment, Comment, Comment, Comment, Comment])))

  /** `Sample` zipped with its own tail, in the same five stretches. */
  const SampleOpen: seq<Event> := [Event(Some('/'), Some('*')), Event(Some('*'), Some('x'))]
  const SampleBody: seq<Event> :=
    [Event(Some('x'), Some('x')), Event(Some('x'), Some('x')), Event(Some('x'), Some('*'))]
  const SampleClose: seq<Event> := [Event(Some('*'), Some('/')), Event(Some('/'), Some('\n'))]
  const SampleLine: seq<Event> :=
    [Event(Some('\n'), Some('/')), Event(Some('/'), Some('/')), Event(Some('/'), Some('/'))]
  const SampleRest: seq<Event> :=
    [Event(Some('/'), Some('*')), Event(Some('*'), Some('y')), Event(Some('y'), Some('y')),
     Event(Some('y'), Some('y')), Event(Some('y'), Some('*')), Event(Some('*'), Some('/')),
     Event(Some('/'), None)]

  /** The zipped sample is the five stretches one after the other; the last
      event has no lookahead. */
  lemma SampleEvents()
    ensures Zip(Sample) == SampleOpen + (SampleBody + (SampleClose + (SampleLine + SampleRest)))
  {
  }

  /** What each stretch of the sample does to the machine. */
  lemma SampleStretches()
    ensures Steps(Initial, SampleOpen) == [Skip(MultilineComment, 1), MultilineComment]
    ensures Steps(MultilineComment, SampleBody) == [MultilineComment, MultilineComment, MultilineComment]
    ensures Steps(MultilineComment, SampleClose) == [Skip(Initial, 1), Initial]
    ensures Steps(Initial, SampleLine) == [Initial, Skip(Comment, 1), Comment]
    ensures Steps(Comment, SampleRest) == [Comment, Comment, Comment, Comment, Comment, Comment, Comment]
    ensures Last(Initial, SampleOpen) == MultilineComment && Last(MultilineComment, SampleBody) == MultilineComment
    ensures Last(MultilineComment, SampleClose) == Initial && Last(Initial, SampleLine) == Comment
  {
    CommentWithoutNewline(SampleRest);
  }

  /** Running the machine from `Initial` over `Sample` zipped with its own
      tail passes through `SampleTrace`. */
  lemma SampleSteps()
    ensures Steps(Initial, Zip(Sample)) == SampleTrace
  {
    SampleEvents();
    SampleStretches();
    var line := SampleLine + SampleRest;
    StepsAppend(Initial, SampleLine, SampleRest);
    assert Steps(Initial, line) == [Initial, Skip(Comment, 1), Comment]
      + [Comment, Comment, Comment, Comment, Comment, Comment, Comment];
    var close := SampleClose + line;
    StepsAppend(MultilineComment, SampleClose, line);
    assert Steps(MultilineComment, close) == [Skip(Initial, 1), Initial] + Steps(Initial, line);
    var body := SampleBody + close;
    StepsAppend(MultilineComment, SampleBody, close);
    assert Steps(MultilineComment, body) == [MultilineComment, MultilineComment, MultilineComment]
      + Steps(MultilineComment, close);
    StepsAppend(Initial, SampleOpen, body);
  }

  /** The sample and its trace around the end of the block comment: the
      trace is in `MultilineComment` only in its first five states, and no
      `x` comes after them. */
  lemma SampleSplit()
    ensures SampleTrace[..5] == [Skip(MultilineComment, 1), MultilineComment, MultilineComment, MultilineComment, MultilineComment]
    ensures MultilineComment !in SampleTrace[5..]
    ensures 'x' !in Sample[5..]
  {
    assert Sample[5..] == "*/\n///*yyy*/";
  }

  /** On `Sample`, the machine stays in `MultilineComment` from one event to
      the next only on an `x`, and every `x` leaves it in `MultilineComment`. */
  lemma SampleMultilineOnlyOnX()
    ensures forall k :: (0 <= k < |Sample| && Before(Initial, Zip(Sample), k) == MultilineComment
                         && Steps(Initial, Zip(Sample))[k] == MultilineComment) ==> Sample[k] == 'x'
    ensures forall k :: 0 <= k < |Sample| && Sample[k] == 'x' ==>
      Steps(Initial, Zip(Sample))[k] == MultilineComment
  {
    SampleSteps();
    SampleSplit();
    var r := Steps(Initial, Zip(Sample));
    forall k | 0 <= k < |Sample|
      ensures Before(Initial, Zip(Sample), k) == MultilineComment && r[k] == MultilineComment ==> Sample[k] == 'x'
      ensures Sample[k] == 'x' ==> r[k] == MultilineComment
    {
      if k < 2 {
        assert Sample[k] != 'x';
        assert Before(Initial, Zip(Sample), k) != MultilineComment;
      } else if k < 5 {
        assert Sample[k] == 'x' && r[k] == r[..5][k];
      } else {
        assert r[k] in r[5..] && Sample[k] in Sample[5..];
      }
    }
  }
}
