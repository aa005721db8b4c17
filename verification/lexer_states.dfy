/** The lexical states (lexer/states.py): each state labels the character
    it is fed and says which state meets the next one. */
module LexerStates {
  import opened Common
  import opened Ascii
  import opened LexerUtil

  /** One value per state class. `Skip` is `SkipState`: it wraps the state
      to continue with, swallows `count - 1` further events, optionally hands
      the last event on (`activate`), and may pretend to be another label. */
  datatype LexState =
    | Initial
    | Whitespace
    | Comment
    | MultilineComment
    | Javadoc
    | Name
    | MethodGeneric
    | ArgumentsParenthesis
    | Annotation
    | AnnotationBrackets
    | Skip(next: LexState, activate: bool, count: int, asState: Option<Label>, separated: bool)
  {
    /** `State.type`: the class name, except where a class overrides it. */
    function Type(): Label {
      match this
      case Initial => InitialState
      case Whitespace => WhitespaceState
      case Comment => CommentState
      case MultilineComment => MultilineCommentState
      case Javadoc => JavadocState
      case Name => NameState
      case MethodGeneric => ModifierState
      case ArgumentsParenthesis => ArgumentsParenthesisState
      case Annotation => AnnotationState
      case AnnotationBrackets => AnnotationState
      case Skip(next, _, _, asState, _) => asState.GetOr(next.Type())
    }
  }

  /** A skip back to `InitialState` that hands its last event on and reports
      `label` meanwhile: how delimiters, brackets and keywords are recognised. */
  function Pretend(shown: Label, count: int): LexState {
    Skip(Initial, true, count, Some(shown), false)
  }

  /** The keywords `InitialState` recognises by lookahead before it tests
      for `<`, each with the label the whole keyword is reported under, in
      the order the source tests them. */
  const LeadingKeywords: seq<(string, Label)> := [
    ("class", IdentifierState), ("interface", IdentifierState), ("enum", IdentifierState),
    ("static", ModifierState), ("abstract", ModifierState), ("default", ModifierState),
    ("final", ModifierState)
  ]

  /** The keywords tested after `<`, in the order the source tests them. */
  const TrailingKeywords: seq<(string, Label)> := [
    ("extends", IdentifierState), ("implements", IdentifierState), ("import", IdentifierState),
    ("package", IdentifierState),
    ("protected", AccessModifierState), ("private", AccessModifierState), ("public", AccessModifierState)
  ]

  /** Every keyword the lexer recognises. */
  const Keywords: seq<(string, Label)> := LeadingKeywords + TrailingKeywords

  /** The length of the shortest keyword, `enum`. */
  const ShortestKeyword := 4

  /** No keyword is shorter than `ShortestKeyword`, so none starts within
      the last `ShortestKeyword - 1` characters of the text. */
  lemma KeywordLengths(e: CharEvent)
    ensures forall k :: 0 <= k < |Keywords| ==> |Keywords[k].0| >= ShortestKeyword
    ensures |e.text| < e.index + ShortestKeyword ==>
      forall k :: 0 <= k < |Keywords| ==> !e.IsStartOf(Keywords[k].0)
  {
    forall k | 0 <= k < |Keywords|
      ensures |Keywords[k].0| >= ShortestKeyword
    {
      assert k < 7 || 7 <= k < 14;
    }
  }

  /** The position of the first `true` in `bs` from position `i` on, or
      `|bs|` when there is none. */
  function FirstTrue(bs: seq<bool>, i: nat): (k: nat)
    requires i <= |bs|
    ensures i <= k <= |bs|
    ensures k < |bs| ==> bs[k]
    ensures forall j :: i <= j < k ==> !bs[j]
    decreases |bs| - i
  {
    if i == |bs| || bs[i] then i else FirstTrue(bs, i + 1)
  }

  /** The position of the first entry of `table` whose word starts at the
      event, or `|table|` when there is none. */
  function FirstMatch(e: CharEvent, table: seq<(string, Label)>): (k: nat)
    ensures k <= |table|
    ensures k < |table| ==> e.IsStartOf(table[k].0)
    ensures forall j :: 0 <= j < k ==> !e.IsStartOf(table[j].0)
  {
    var starts := seq(|table|, j requires 0 <= j < |table| => e.IsStartOf(table[j].0));
    var k := FirstTrue(starts, 0);
    assert forall j :: 0 <= j < k ==> !e.IsStartOf(table[j].0) by {
      forall j | 0 <= j < k
        ensures !e.IsStartOf(table[j].0)
      {
        assert !starts[j];
      }
    }
    k
  }

  /** The chain of `is_start_of` tests in table order: the first entry of
      `table` whose word starts at the event. What it finds is stated by
      `MatchKeywordFinds`. */
  function MatchKeyword(e: CharEvent, table: seq<(string, Label)>): Option<(string, Label)> {
    if |table| == 0 then None
    else if e.IsStartOf(table[0].0) then Some(table[0])
    else MatchKeyword(e, table[1..])
  }

  /** The chain of tests finds the first entry that starts at the event,
      whatever later entries would also match. */
  lemma {:induction false} MatchKeywordFirst(e: CharEvent, table: seq<(string, Label)>, k: nat)
    requires k < |table| && e.IsStartOf(table[k].0)
    requires forall j :: 0 <= j < k ==> !e.IsStartOf(table[j].0)
    ensures MatchKeyword(e, table) == Some(table[k])
  {
    if k > 0 {
      assert !e.IsStartOf(table[0].0);
      forall j | 0 <= j < k - 1
        ensures !e.IsStartOf(table[1..][j].0)
      {
        assert table[1..][j] == table[j + 1];
      }
      MatchKeywordFirst(e, table[1..], k - 1);
    }
  }

  /** The chain finds nothing exactly when no entry starts at the event. */
  lemma {:induction false} MatchKeywordNone(e: CharEvent, table: seq<(string, Label)>)
    ensures MatchKeyword(e, table).None? <==> forall k :: 0 <= k < |table| ==> !e.IsStartOf(table[k].0)
  {
    if |table| > 0 && !e.IsStartOf(table[0].0) {
      MatchKeywordNone(e, table[1..]);
      assert forall k :: 0 < k < |table| ==> table[k] == table[1..][k - 1];
    }
  }

  /** What the chain of tests finds: an entry of the table that starts at
      the event, namely the one at `FirstMatch`, and nothing exactly when no
      entry starts there. */
  lemma MatchKeywordFinds(e: CharEvent, table: seq<(string, Label)>)
    ensures MatchKeyword(e, table).Some? ==>
      MatchKeyword(e, table).value in table && e.IsStartOf(MatchKeyword(e, table).value.0)
    ensures MatchKeyword(e, table).None? <==> forall k :: 0 <= k < |table| ==> !e.IsStartOf(table[k].0)
    ensures FirstMatch(e, table) < |table| ==> MatchKeyword(e, table) == Some(table[FirstMatch(e, table)])
    ensures FirstMatch(e, table) == |table| ==> MatchKeyword(e, table) == None
  {
    var k := FirstMatch(e, table);
    MatchKeywordNone(e, table);
    if k < |table| {
      MatchKeywordFirst(e, table, k);
    }
  }

  /** The skip a recognised keyword becomes: back to `InitialState` after
      the keyword's characters, reported under the keyword's label. */
  function KeywordSkip(entry: (string, Label)): LexState {
    Pretend(entry.1, |entry.0|)
  }

  /** `InitialState.on_event` from the keyword tests on. */
  function WordOnEvent(e: CharEvent): LexState {
    match MatchKeyword(e, LeadingKeywords)
    case Some(entry) => KeywordSkip(entry)
    case None =>
      if e.Is('<') then MethodGeneric
      else match MatchKeyword(e, TrailingKeywords)
      case Some(entry) => KeywordSkip(entry)
      case None =>
        if e.Satisfies(IsIdentifier) then Name
        else if e.Satisfies(IsSpace) then Whitespace
        else Initial
  }

  /** `InitialState.on_event`. */
  function InitialOnEvent(e: CharEvent): LexState {
    if e.Is('/') then
      var la := e.Lookahead(2);
      if la[0] == '*' then
        (if la[1] == '*' then Skip(Javadoc, false, 2, None, false)
         else Skip(MultilineComment, false, 1, None, false))
      else if la[0] == '/' then Skip(Comment, false, 1, None, false)
      else Initial
    else if e.Is('.') then Pretend(DelimiterState, 1)
    else if e.Is(',') then Pretend(DelimiterState, 1)
    else if e.Is(';') then Pretend(DelimiterState, 1)
    else if e.Is('{') then Skip(Initial, true, 1, Some(OpenBracketState), true)
    else if e.Is('}') then Skip(Initial, true, 1, Some(ClosedBracketState), true)
    else if e.Is('(') then Pretend(OpenParenthesisState, 1)
    else if e.Is(')') then Pretend(ClosedParenthesisState, 1)
    else if e.Is('@') then Annotation
    else WordOnEvent(e)
  }

  /** A block comment ends on `*` followed by `/`: both characters stay
      under the comment's label, then the text goes on from `InitialState`. */
  predicate ClosesComment(e: CharEvent) {
    e.Is('*') && e.Lookahead(1) == "/"
  }

  /** `on_event` of every lexical state. */
  function OnEvent(s: LexState, e: CharEvent): LexState
    decreases s
  {
    match s
    case Initial => InitialOnEvent(e)
    case Whitespace =>
      if e.Satisfies(IsSpace) then s else InitialOnEvent(e)
    case Comment =>
      if e.Is('\n') then Initial else s
    case MultilineComment =>
      if ClosesComment(e) then Pretend(MultilineCommentState, 2) else s
    case Javadoc =>
      if ClosesComment(e) then Pretend(JavadocState, 2) else s
    case Name =>
      if e.Satisfies(IsIdentifier) || e.Satisfies(IsNumeric) || e.Is('<') || e.Is('>') then s
      else if e.Is('.') then Pretend(DelimiterState, 1)
      else if e.Is('(') then ArgumentsParenthesis
      else InitialOnEvent(e)
    case MethodGeneric =>
      if e.Is('>') then Pretend(ModifierState, 1)
      else if e.Satisfies(IsSpace) || e.Satisfies(IsIdentifier) || e.Satisfies(IsNumeric) || e.Is('?') then s
      else InitialOnEvent(e)
    case ArgumentsParenthesis =>
      if e.Is(')') then Pretend(ArgumentsParenthesisState, 1)
      else if e.Satisfies(IsIdentifier) || e.Satisfies(IsNumeric)
        || e.Is('<') || e.Is('>') || e.Is(',') || e.Is('[') || e.Is(']') || e.Is('?') || e.Is('.')
        || e.Satisfies(IsSpace) then s
      else InitialOnEvent(e)
    case Annotation =>
      if e.Satisfies(IsAlpha) then s
      else if e.Is('(') then AnnotationBrackets
      else Initial
    case AnnotationBrackets =>
      if e.Is(')') then Pretend(AnnotationState, 1) else s
    case Skip(next, activate, count, asState, separated) =>
      if count > 1 then Skip(next, activate, count - 1, asState, separated)
      else if activate then OnEvent(next, e)
      else next
  }

  /** The state after feeding `events` one by one, starting from `s`. */
  function Feed(s: LexState, events: seq<CharEvent>): LexState {
    if |events| == 0 then s else OnEvent(Feed(s, events[..|events| - 1]), events[|events| - 1])
  }

  /** A skip keeps its label while it counts down: for `count > 1` it stays
      itself with one less to go, and after `count - 1` further events it is
      the same skip with count 1, still under the same label. */
  lemma {:induction false} SkipCountsDown(next: LexState, activate: bool, count: int,
                                          asState: Option<Label>, separated: bool, events: seq<CharEvent>)
    requires |events| < count
    ensures Feed(Skip(next, activate, count, asState, separated), events)
         == Skip(next, activate, count - |events|, asState, separated)
    ensures Feed(Skip(next, activate, count, asState, separated), events).Type()
         == asState.GetOr(next.Type())
  {
    if |events| > 0 {
      SkipCountsDown(next, activate, count, asState, separated, events[..|events| - 1]);
    }
  }

  /** At count 1 (or less) a skip ends: it becomes the wrapped state, which
      is fed the current event first exactly when `activate` is set. */
  lemma SkipEnds(next: LexState, activate: bool, count: int, asState: Option<Label>,
                 separated: bool, e: CharEvent)
    requires count <= 1
    ensures activate ==> OnEvent(Skip(next, activate, count, asState, separated), e) == OnEvent(next, e)
    ensures !activate ==> OnEvent(Skip(next, activate, count, asState, separated), e) == next
  {
    if activate {
      match next
      case Skip(_, _, _, _, _) =>
        assert OnEvent(Skip(next, activate, count, asState, separated), e) == OnEvent(next, e);
      case _ =>
        assert OnEvent(Skip(next, activate, count, asState, separated), e) == OnEvent(next, e);
    }
  }

  /** A skip reports the label it pretends to be, and otherwise the label
      of the state it wraps. */
  lemma SkipLabel(next: LexState, activate: bool, count: int, asState: Option<Label>, separated: bool)
    ensures asState.Some? ==> Skip(next, activate, count, asState, separated).Type() == asState.value
    ensures asState.None? ==> Skip(next, activate, count, asState, separated).Type() == next.Type()
  {
  }

  /** Two words that differ at position `t` cannot both start at the event. */
  lemma StartDiffers(e: CharEvent, v: string, w: string, t: nat)
    requires t < |v| && t < |w| && v[t] != w[t]
    ensures !(e.IsStartOf(v) && e.IsStartOf(w))
  {
  }

  /** No two keywords start at the same place: none is a prefix of another. */
  lemma KeywordsExclusive(e: CharEvent)
    ensures !(e.IsStartOf("interface") && e.IsStartOf("implements"))
    ensures !(e.IsStartOf("interface") && e.IsStartOf("import"))
    ensures !(e.IsStartOf("implements") && e.IsStartOf("import"))
    ensures !(e.IsStartOf("enum") && e.IsStartOf("extends"))
    ensures !(e.IsStartOf("package") && e.IsStartOf("protected"))
    ensures !(e.IsStartOf("package") && e.IsStartOf("private"))
    ensures !(e.IsStartOf("package") && e.IsStartOf("public"))
    ensures !(e.IsStartOf("protected") && e.IsStartOf("private"))
    ensures !(e.IsStartOf("protected") && e.IsStartOf("public"))
    ensures !(e.IsStartOf("private") && e.IsStartOf("public"))
  {
    StartDiffers(e, "interface", "implements", 1);
    StartDiffers(e, "interface", "import", 1);
    StartDiffers(e, "implements", "import", 3);
    StartDiffers(e, "enum", "extends", 1);
    StartDiffers(e, "package", "protected", 1);
    StartDiffers(e, "package", "private", 1);
    StartDiffers(e, "package", "public", 1);
    StartDiffers(e, "protected", "private", 2);
    StartDiffers(e, "protected", "public", 1);
    StartDiffers(e, "private", "public", 1);
  }

  /** A keyword can only start where its first letter is. */
  lemma KeywordLetters(e: CharEvent)
    ensures e.IsStartOf("class") ==> e.Is('c')
    ensures e.IsStartOf("interface") ==> e.Is('i')
    ensures e.IsStartOf("enum") ==> e.Is('e')
    ensures e.IsStartOf("static") ==> e.Is('s')
    ensures e.IsStartOf("abstract") ==> e.Is('a')
    ensures e.IsStartOf("default") ==> e.Is('d')
    ensures e.IsStartOf("final") ==> e.Is('f')
    ensures e.IsStartOf("extends") ==> e.Is('e')
    ensures e.IsStartOf("implements") ==> e.Is('i')
    ensures e.IsStartOf("import") ==> e.Is('i')
    ensures e.IsStartOf("package") ==> e.Is('p')
    ensures e.IsStartOf("protected") ==> e.Is('p')
    ensures e.IsStartOf("private") ==> e.Is('p')
    ensures e.IsStartOf("public") ==> e.Is('p')
  {
  }

  /** When exactly one entry of a table starts at the event, the chain of
      tests finds that entry. */
  lemma {:induction false} OnlyStarterMatches(e: CharEvent, table: seq<(string, Label)>, k: nat)
    requires k < |table| && e.IsStartOf(table[k].0)
    requires forall j :: 0 <= j < |table| && j != k ==> !e.IsStartOf(table[j].0)
    ensures MatchKeyword(e, table) == Some(table[k])
  {
    MatchKeywordFirst(e, table, k);
  }

  /** Each keyword tested before `<` is recognised when it starts at the event. */
  lemma LeadingRecognised(e: CharEvent, k: nat)
    requires k < |LeadingKeywords| && e.IsStartOf(LeadingKeywords[k].0)
    ensures MatchKeyword(e, LeadingKeywords) == Some(LeadingKeywords[k])
    ensures e.Satisfies(IsAlpha)
  {
    KeywordLetters(e);
    KeywordsExclusive(e);
    assert k == 0 || k == 1 || k == 2 || k == 3 || k == 4 || k == 5 || k == 6;
    forall j | 0 <= j < |LeadingKeywords| && j != k
      ensures !e.IsStartOf(LeadingKeywords[j].0)
    {
      assert j == 0 || j == 1 || j == 2 || j == 3 || j == 4 || j == 5 || j == 6;
      assert k == 0 || k == 1 || k == 2 || k == 3 || k == 4 || k == 5 || k == 6;
    }
    OnlyStarterMatches(e, LeadingKeywords, k);
  }

  /** A keyword tested after `<` starts at a letter where no keyword tested
      before `<` starts, so the earlier tests all fail. */
  lemma TrailingNotLeading(e: CharEvent, k: nat)
    requires k < |TrailingKeywords| && e.IsStartOf(TrailingKeywords[k].0)
    ensures MatchKeyword(e, LeadingKeywords) == None
    ensures e.Satisfies(IsAlpha) && !e.Is('<')
  {
    KeywordLetters(e);
    KeywordsExclusive(e);
    assert k == 0 || k == 1 || k == 2 || k == 3 || k == 4 || k == 5 || k == 6;
    forall j | 0 <= j < |LeadingKeywords|
      ensures !e.IsStartOf(LeadingKeywords[j].0)
    {
      assert j == 0 || j == 1 || j == 2 || j == 3 || j == 4 || j == 5 || j == 6;
    }
    MatchKeywordNone(e, LeadingKeywords);
  }

  /** Each keyword tested after `<` is recognised when it starts at the event. */
  lemma TrailingRecognised(e: CharEvent, k: nat)
    requires k < |TrailingKeywords| && e.IsStartOf(TrailingKeywords[k].0)
    ensures MatchKeyword(e, TrailingKeywords) == Some(TrailingKeywords[k])
  {
    KeywordLetters(e);
    KeywordsExclusive(e);
    forall j | 0 <= j < |TrailingKeywords| && j != k
      ensures !e.IsStartOf(TrailingKeywords[j].0)
    {
      assert j == 0 || j == 1 || j == 2 || j == 3 || j == 4 || j == 5 || j == 6;
      assert k == 0 || k == 1 || k == 2 || k == 3 || k == 4 || k == 5 || k == 6;
    }
    OnlyStarterMatches(e, TrailingKeywords, k);
  }

  /** Past the single-character tests, `InitialState` reads the event as
      the start of a word. */
  lemma WordEvent(e: CharEvent)
    requires !e.Is('/') && !e.Is('.') && !e.Is(',') && !e.Is(';') && !e.Is('{')
    requires !e.Is('}') && !e.Is('(') && !e.Is(')') && !e.Is('@')
    ensures InitialOnEvent(e) == WordOnEvent(e)
  {
  }

  /** A keyword seen from `InitialState` becomes a skip back to the initial
      state that covers exactly the keyword's characters and reports the
      keyword's label; there is no check that the word ends there. */
  lemma KeywordRecognised(e: CharEvent, k: nat)
    requires k < |Keywords| && e.IsStartOf(Keywords[k].0)
    ensures InitialOnEvent(e) == Pretend(Keywords[k].1, |Keywords[k].0|)
  {
    if k < |LeadingKeywords| {
      assert Keywords[k] == LeadingKeywords[k];
      LeadingRecognised(e, k);
      WordEvent(e);
      assert WordOnEvent(e) == KeywordSkip(Keywords[k]);
    } else {
      assert Keywords[k] == TrailingKeywords[k - |LeadingKeywords|];
      TrailingNotLeading(e, k - |LeadingKeywords|);
      TrailingRecognised(e, k - |LeadingKeywords|);
      WordEvent(e);
      assert WordOnEvent(e) == KeywordSkip(Keywords[k]);
    }
  }

  /** Where no letter stands, no keyword is recognised. */
  lemma NoKeywordWithoutLetter(e: CharEvent)
    requires !e.Satisfies(IsAlpha)
    ensures MatchKeyword(e, LeadingKeywords) == None
    ensures MatchKeyword(e, TrailingKeywords) == None
  {
    KeywordLetters(e);
    forall j | 0 <= j < 7
      ensures !e.IsStartOf(LeadingKeywords[j].0) && !e.IsStartOf(TrailingKeywords[j].0)
    {
      assert j == 0 || j == 1 || j == 2 || j == 3 || j == 4 || j == 5 || j == 6;
    }
    MatchKeywordNone(e, LeadingKeywords);
    MatchKeywordNone(e, TrailingKeywords);
  }

  /** An identifier character where no keyword starts begins a name. */
  lemma PlainWordIsName(e: CharEvent)
    requires e.Satisfies(IsIdentifier)
    requires forall k :: 0 <= k < |Keywords| ==> !e.IsStartOf(Keywords[k].0)
    ensures InitialOnEvent(e) == Name
  {
    forall j | 0 <= j < |LeadingKeywords|
      ensures !e.IsStartOf(LeadingKeywords[j].0)
    {
      assert LeadingKeywords[j] == Keywords[j];
    }
    forall j | 0 <= j < |TrailingKeywords|
      ensures !e.IsStartOf(TrailingKeywords[j].0)
    {
      assert TrailingKeywords[j] == Keywords[|LeadingKeywords| + j];
    }
    MatchKeywordNone(e, LeadingKeywords);
    MatchKeywordNone(e, TrailingKeywords);
    WordEvent(e);
  }

  /** Inside a name run a keyword is not recognised: identifier characters,
      digits, `<` and `>` all keep `NameState`. */
  lemma NameAbsorbs(e: CharEvent)
    requires e.Satisfies(IsIdentifier) || e.Satisfies(IsNumeric) || e.Is('<') || e.Is('>')
    ensures OnEvent(Name, e) == Name
  {
  }

  /** Comment openers: a slash followed by two stars enters a Javadoc skip,
      a slash and one star otherwise a multi-line comment skip, two slashes a
      line-comment skip, each labelled as the comment it opens. */
  lemma CommentOpeners(e: CharEvent)
    requires e.Is('/')
    ensures e.IsStartOf("/**") ==> InitialOnEvent(e) == Skip(Javadoc, false, 2, None, false)
    ensures e.IsStartOf("/*") && !e.IsStartOf("/**")
         ==> InitialOnEvent(e) == Skip(MultilineComment, false, 1, None, false)
    ensures e.IsStartOf("//") ==> InitialOnEvent(e) == Skip(Comment, false, 1, None, false)
    ensures !e.IsStartOf("/*") && !e.IsStartOf("//") ==> InitialOnEvent(e) == Initial
  {
    var la := e.Lookahead(2);
    if e.index + 2 < |e.text| {
      assert e.text[e.index..e.index + 3] == [e.text[e.index], e.text[e.index + 1], e.text[e.index + 2]];
    }
    if e.index + 1 < |e.text| {
      assert e.text[e.index..e.index + 2] == [e.text[e.index], e.text[e.index + 1]];
    }
  }

  /** The closing `*` and `/` of a block comment both carry the comment's
      label, and the character after them is read as by `InitialState`. */
  lemma CommentCloseLabelled(s: LexState, star: CharEvent, slash: CharEvent, after: CharEvent)
    requires s == MultilineComment || s == Javadoc
    requires ClosesComment(star)
    ensures OnEvent(s, star).Type() == s.Type()
    ensures OnEvent(OnEvent(s, star), slash).Type() == s.Type()
    ensures OnEvent(OnEvent(OnEvent(s, star), slash), after) == InitialOnEvent(after)
  {
  }

  /** A `<` seen from `InitialState` opens a generic run labelled
      `ModifierState`, which ends with its `>` still under that label. */
  lemma GenericIsModifier(open: CharEvent, close: CharEvent)
    requires open.Is('<') && close.Is('>')
    ensures InitialOnEvent(open) == MethodGeneric && MethodGeneric.Type() == ModifierState
    ensures OnEvent(MethodGeneric, close).Type() == ModifierState
  {
    NoKeywordWithoutLetter(open);
    WordEvent(open);
  }

  /** Inside an annotation's parentheses every character up to and including
      `)` stays labelled `AnnotationState`. */
  lemma AnnotationParensLabelled(e: CharEvent)
    ensures OnEvent(AnnotationBrackets, e).Type() == AnnotationState
  {
  }

  /** Whitespace keeps `WhitespaceState`, and `InitialState` turns to it. */
  lemma WhitespaceStays(e: CharEvent)
    requires e.Satisfies(IsSpace)
    ensures OnEvent(Whitespace, e) == Whitespace
    ensures OnEvent(Initial, e) == Whitespace
  {
    NoKeywordWithoutLetter(e);
    WordEvent(e);
  }

  /** A character that passes none of `InitialState`'s tests, and the end of
      input, leave `InitialState` unchanged. */
  lemma UnrecognisedStays(e: CharEvent)
    requires e.Eof()
      || (!e.Is('/') && !e.Is('.') && !e.Is(',') && !e.Is(';') && !e.Is('{') && !e.Is('}')
          && !e.Is('(') && !e.Is(')') && !e.Is('@') && !e.Is('<')
          && !e.Satisfies(IsIdentifier) && !e.Satisfies(IsSpace))
    ensures OnEvent(Initial, e) == Initial
  {
    NoKeywordWithoutLetter(e);
    WordEvent(e);
  }
}
