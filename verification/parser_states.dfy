/** The syntactic states (parser/states.py): a second state machine that
    reads the lexer's tokens and labels runs of them as parts of class,
    interface and method declarations. */
module ParserStates {
  import opened Common
  import Lexical = LexerUtil

  /** The labels syntactic runs carry: the state class names, the labels the
      skips pretend to be, and `InitialState` for the initial state. */
  datatype SynLabel =
    | InitialState
    | DeclarationWithDocsState | DeclarationWithAnnotationsState
    | DeclarationWithAccessModifiersState | DeclarationWithModifiersState
    | ClassState | ClassNameState | ClassExtendsState | ClassImplementsState
    | ClassImplementsListState | ClassOpenBracketState
    | MethodReturnTypeState | MethodNameState | MethodArgumentsState
    | InterfaceMethodDelimiter
    | InterfaceState | InterfaceNameState | InterfaceExtendsListState
    | InterfaceOpenBracketState
    | MethodOpenBracketState | MethodBodyState
    | ClosedBracketState | OpenBracketState
    | DeadState

  /** Why a syntactic transition raises instead of returning a state. */
  datatype Fault =
    | EmptyLookahead   // `lookahead(1)[0]` with no token after the current one
    | NoNextState      // `DeadState.on_event` returns `None`

  /** The event of meeting `token`, with the tokens after it as lookahead. */
  datatype TokenEvent = TokenEvent(token: Lexical.Token, rest: seq<Lexical.Token>) {

    /** `lookahead(n)`: at most `n` of the following tokens, never failing. */
    function Lookahead(n: nat): (r: seq<Lexical.Token>)
      ensures |r| == if n <= |rest| then n else |rest|
      ensures r == rest[..|r|]
    {
      PySliceTo(rest, n)
    }

    /** `lookahead(1)[0].state`, which raises when no token follows. */
    function NextLabel(): (r: Result<Lexical.Label, Fault>)
      ensures r.Err? <==> |rest| == 0
      ensures r.Err? ==> r.error == EmptyLookahead
      ensures r.Ok? ==> r.value == rest[0].state
    {
      var la := Lookahead(1);
      if |la| == 0 then Err(EmptyLookahead) else Ok(la[0].state)
    }

    /** The token carries lexical label `l`. */
    predicate Has(l: Lexical.Label) {
      token.state == l
    }

    /** The token carries lexical label `l` and text `v`. */
    predicate HasText(l: Lexical.Label, v: string) {
      token.state == l && token.value == v
    }

    /** A token follows, and it is a name: the `lookahead(1)[0].state ==
        'NameState'` test, where it does not raise. */
    predicate NameFollows() {
      |rest| > 0 && rest[0].state == Lexical.NameState
    }
  }

  /** One value per syntactic state class. `MethodBody` carries the number of
      unmatched `{` met inside the body; `Skip` is the lexer's `SkipState`
      reused here (never separated). */
  datatype PState =
    | Initial
    | WithDocs | WithAnnotations | WithAccessModifier | WithModifiers
    | Class | ClassName | ClassImplements | ClassImplementsList | ClassOpenBracket
    | MethodReturnType | MethodName | MethodArguments
    | Interface | InterfaceName | InterfaceExtendsList
    | MethodOpenBracket | MethodBody(depth: nat)
    | ClosedBracket | OpenBracket
    | Dead
    | Skip(next: PState, activate: bool, count: int, asState: Option<SynLabel>)
  {
    /** `State.type`. */
    function Type(): SynLabel {
      match this
      case Initial => InitialState
      case WithDocs => DeclarationWithDocsState
      case WithAnnotations => DeclarationWithAnnotationsState
      case WithAccessModifier => DeclarationWithAccessModifiersState
      case WithModifiers => DeclarationWithModifiersState
      case Class => ClassState
      case ClassName => ClassNameState
      case ClassImplements => ClassImplementsState
      case ClassImplementsList => ClassImplementsListState
      case ClassOpenBracket => ClassOpenBracketState
      case MethodReturnType => MethodReturnTypeState
      case MethodName => MethodNameState
      case MethodArguments => MethodArgumentsState
      case Interface => InterfaceState
      case InterfaceName => InterfaceNameState
      case InterfaceExtendsList => InterfaceExtendsListState
      case MethodOpenBracket => MethodOpenBracketState
      case MethodBody(_) => MethodBodyState
      case ClosedBracket => ClosedBracketState
      case OpenBracket => OpenBracketState
      case Dead => DeadState
      case Skip(next, _, _, asState) => asState.GetOr(next.Type())
    }

    /** `State.separated`: only the bracket states stand alone. */
    predicate Separated() {
      this == ClosedBracket || this == OpenBracket
    }
  }

  /** A one-token skip back to the initial state that reports `shown` for
      the current token and hands the next one straight on. */
  function Pretend(shown: SynLabel): PState {
    Skip(Initial, true, 1, Some(shown))
  }

  /** A pretend state reports the label it was made with. */
  lemma PretendShows(shown: SynLabel)
    ensures Pretend(shown).Type() == shown
  {
  }

  /** `ParserInitialState.on_event`, which the brace states hand their
      events to as well. */
  function InitialOnEvent(e: TokenEvent): PState {
    var t := e.token;
    if t.state == Lexical.JavadocState then WithDocs
    else if t.state == Lexical.AnnotationState then WithAnnotations
    else if t.state == Lexical.AccessModifierState then WithAccessModifier
    else if t.state == Lexical.ModifierState then WithModifiers
    else if t.state == Lexical.IdentifierState && t.value == "class" then Class
    else if t.state == Lexical.IdentifierState && t.value == "interface" then Interface
    else if t.state == Lexical.NameState then MethodReturnType
    else if t.state == Lexical.ClosedBracketState then ClosedBracket
    else if t.state == Lexical.OpenBracketState then OpenBracket
    else Dead
  }

  /** `on_event` of every syntactic state, one case per state class. A
      transition guarded by `lookahead(1)[0].state == 'NameState'` raises
      when no token follows. */
  function OnEvent(s: PState, e: TokenEvent): Result<PState, Fault>
    decreases s
  {
    var t := e.token;
    match s
    case Initial => Ok(InitialOnEvent(e))
    case WithDocs =>
      Ok(if t.state == Lexical.AnnotationState then WithAnnotations
         else if t.state == Lexical.AccessModifierState then WithAccessModifier
         else if t.state == Lexical.ModifierState then WithModifiers
         else if t.state == Lexical.IdentifierState && t.value == "class" then Class
         else if t.state == Lexical.IdentifierState && t.value == "interface" then Interface
         else if t.state == Lexical.NameState then MethodReturnType
         else Dead)
    case WithAnnotations =>
      Ok(if t.state == Lexical.AnnotationState then WithAnnotations
         else if t.state == Lexical.AccessModifierState then WithAccessModifier
         else if t.state == Lexical.ModifierState then WithModifiers
         else if t.state == Lexical.IdentifierState && t.value == "class" then Class
         else if t.state == Lexical.IdentifierState && t.value == "interface" then Interface
         else if t.state == Lexical.NameState then MethodReturnType
         else Dead)
    case WithAccessModifier =>
      Ok(if t.state == Lexical.ModifierState then WithModifiers
         else if t.state == Lexical.IdentifierState && t.value == "class" then Class
         else if t.state == Lexical.IdentifierState && t.value == "interface" then Interface
         else if t.state == Lexical.NameState then MethodReturnType
         else Dead)
    case WithModifiers =>
      Ok(if t.state == Lexical.ModifierState then WithModifiers
         else if t.state == Lexical.IdentifierState && t.value == "class" then Class
         else if t.state == Lexical.IdentifierState && t.value == "interface" then Interface
         else if t.state == Lexical.NameState then MethodReturnType
         else Dead)
    case Class => Ok(if t.state == Lexical.NameState then ClassName else Dead)
    case ClassName =>
      if t.state == Lexical.IdentifierState then
        (if t.value == "extends" then
           (if |e.rest| == 0 then Err(EmptyLookahead)
            else Ok(if e.rest[0].state == Lexical.NameState
                    then Skip(ClassImplements, true, 2, Some(ClassExtendsState)) else Dead))
         else if t.value == "implements" then
           (if |e.rest| == 0 then Err(EmptyLookahead)
            else Ok(if e.rest[0].state == Lexical.NameState then Skip(ClassImplementsList, false, 1, None) else Dead))
         else Ok(Dead))
      else if t.state == Lexical.OpenBracketState && t.value == "{" then Ok(ClassOpenBracket)
      else Ok(Dead)
    case ClassImplements =>
      if t.state == Lexical.IdentifierState && t.value == "implements" then
        (if |e.rest| == 0 then Err(EmptyLookahead)
         else Ok(if e.rest[0].state == Lexical.NameState then Skip(ClassImplementsList, false, 1, None) else Dead))
      else if t.state == Lexical.OpenBracketState && t.value == "{" then Ok(ClassOpenBracket)
      else Ok(Dead)
    case ClassImplementsList =>
      if t.state == Lexical.DelimiterState && t.value == "," then
        (if |e.rest| == 0 then Err(EmptyLookahead)
         else Ok(if e.rest[0].state == Lexical.NameState then Skip(ClassImplementsList, false, 1, None) else Dead))
      else if t.state == Lexical.OpenBracketState && t.value == "{" then Ok(ClassOpenBracket)
      else Ok(Dead)
    case ClassOpenBracket => Ok(InitialOnEvent(e))
    case MethodReturnType => Ok(if t.state == Lexical.NameState then MethodName else Dead)
    case MethodName => Ok(if t.state == Lexical.ArgumentsParenthesisState then MethodArguments else Dead)
    case MethodArguments =>
      if t.state == Lexical.DelimiterState && t.value == ";" then Ok(Pretend(InterfaceMethodDelimiter))
      else if t.state == Lexical.OpenBracketState && t.value == "{" then Ok(MethodOpenBracket)
      else Ok(Dead)
    case Interface => Ok(if t.state == Lexical.NameState then InterfaceName else Dead)
    case InterfaceName =>
      if t.state == Lexical.IdentifierState then
        (if t.value == "extends" then
           (if |e.rest| == 0 then Err(EmptyLookahead)
            else Ok(if e.rest[0].state == Lexical.NameState then Skip(InterfaceExtendsList, false, 1, None) else Dead))
         else Ok(Dead))
      else if t.state == Lexical.OpenBracketState && t.value == "{" then Ok(Pretend(InterfaceOpenBracketState))
      else Ok(Dead)
    case InterfaceExtendsList =>
      if t.state == Lexical.DelimiterState && t.value == "," then
        (if |e.rest| == 0 then Err(EmptyLookahead)
         else Ok(if e.rest[0].state == Lexical.NameState then Skip(InterfaceExtendsList, false, 1, None) else Dead))
      else if t.state == Lexical.OpenBracketState && t.value == "{" then Ok(Pretend(InterfaceOpenBracketState))
      else Ok(Dead)
    case MethodOpenBracket =>
      Ok(if t.state == Lexical.ClosedBracketState then ClosedBracket else MethodBody(0))
    case MethodBody(depth) =>
      if t.state == Lexical.OpenBracketState then Ok(MethodBody(depth + 1))
      else if t.state == Lexical.ClosedBracketState then
        Ok(if depth == 0 then ClosedBracket else MethodBody(depth - 1))
      else Ok(s)
    case ClosedBracket => Ok(InitialOnEvent(e))
    case OpenBracket => Ok(InitialOnEvent(e))
    case Dead => Err(NoNextState)
    case Skip(next, activate, count, asState) =>
      if count > 1 then Ok(Skip(next, activate, count - 1, asState))
      else if activate then OnEvent(next, e)
      else Ok(next)
  }

  /** A state that can still move: not `DeadState`, and not a skip that would
      report or hand on `DeadState`. Every state the driver feeds is live. */
  predicate Live(s: PState) {
    s.Type() != DeadState && (s.Skip? ==> Live(s.next))
  }

  /** The transitions that index `lookahead(1)[0]`: `extends`, `implements`
      and `,` in the header states that accept them, seen through a skip
      that hands the event on. */
  predicate NeedsLookahead(s: PState, e: TokenEvent) {
    match s
    case ClassName =>
      e.HasText(Lexical.IdentifierState, "extends") || e.HasText(Lexical.IdentifierState, "implements")
    case ClassImplements => e.HasText(Lexical.IdentifierState, "implements")
    case ClassImplementsList => e.HasText(Lexical.DelimiterState, ",")
    case InterfaceName => e.HasText(Lexical.IdentifierState, "extends")
    case InterfaceExtendsList => e.HasText(Lexical.DelimiterState, ",")
    case Skip(next, activate, count, _) => count <= 1 && activate && NeedsLookahead(next, e)
    case _ => false
  }

  /** A live state never reaches `DeadState.on_event`: the only failure left
      is a lookahead past the last token, and it happens exactly on the
      `extends`/`implements`/`,` transitions. Whatever state comes out is
      live unless it reports `DeadState`. */
  lemma {:induction false} LiveTransitions(s: PState, e: TokenEvent)
    requires Live(s)
    ensures OnEvent(s, e).Err? <==> |e.rest| == 0 && NeedsLookahead(s, e)
    ensures OnEvent(s, e).Err? ==> OnEvent(s, e).error == EmptyLookahead
    ensures OnEvent(s, e).Ok? ==> (Live(OnEvent(s, e).value) <==> OnEvent(s, e).value.Type() != DeadState)
    decreases s
  {
    if s.Skip? {
      if s.count <= 1 && s.activate {
        LiveTransitions(s.next, e);
      }
    } else if PrefixRank(s) >= 0 || s == ClassOpenBracket || s == ClosedBracket || s == OpenBracket {
      LiveFromInitial(s, e);
    } else if s == Class || s == ClassName || s == ClassImplements || s == ClassImplementsList {
      LiveInClassHeader(s, e);
    } else if s == Interface || s == InterfaceName || s == InterfaceExtendsList {
      LiveInInterfaceHeader(s, e);
    } else {
      LiveInMethod(s, e);
    }
  }

  /** `LiveTransitions` for the prefix states and the brace states, which
      never look ahead. */
  lemma LiveFromInitial(s: PState, e: TokenEvent)
    requires PrefixRank(s) >= 0 || s == ClassOpenBracket || s == ClosedBracket || s == OpenBracket
    ensures OnEvent(s, e).Err? <==> |e.rest| == 0 && NeedsLookahead(s, e)
    ensures OnEvent(s, e).Err? ==> OnEvent(s, e).error == EmptyLookahead
    ensures OnEvent(s, e).Ok? ==> (Live(OnEvent(s, e).value) <==> OnEvent(s, e).value.Type() != DeadState)
  {
  }

  /** `LiveTransitions` for the states of a class header. */
  lemma LiveInClassHeader(s: PState, e: TokenEvent)
    requires s == Class || s == ClassName || s == ClassImplements || s == ClassImplementsList
    ensures OnEvent(s, e).Err? <==> |e.rest| == 0 && NeedsLookahead(s, e)
    ensures OnEvent(s, e).Err? ==> OnEvent(s, e).error == EmptyLookahead
    ensures OnEvent(s, e).Ok? ==> (Live(OnEvent(s, e).value) <==> OnEvent(s, e).value.Type() != DeadState)
  {
  }

  /** `LiveTransitions` for the states of an interface header. */
  lemma LiveInInterfaceHeader(s: PState, e: TokenEvent)
    requires s == Interface || s == InterfaceName || s == InterfaceExtendsList
    ensures OnEvent(s, e).Err? <==> |e.rest| == 0 && NeedsLookahead(s, e)
    ensures OnEvent(s, e).Err? ==> OnEvent(s, e).error == EmptyLookahead
    ensures OnEvent(s, e).Ok? ==> (Live(OnEvent(s, e).value) <==> OnEvent(s, e).value.Type() != DeadState)
  {
  }

  /** `LiveTransitions` for the states of a method declaration. */
  lemma LiveInMethod(s: PState, e: TokenEvent)
    requires s == MethodReturnType || s == MethodName || s == MethodArguments
      || s == MethodOpenBracket || s.MethodBody?
    ensures OnEvent(s, e).Err? <==> |e.rest| == 0 && NeedsLookahead(s, e)
    ensures OnEvent(s, e).Err? ==> OnEvent(s, e).error == EmptyLookahead
    ensures OnEvent(s, e).Ok? ==> (Live(OnEvent(s, e).value) <==> OnEvent(s, e).value.Type() != DeadState)
  {
  }

  /** How far a declaration prefix has got: 0 before it, then docs,
      annotations, access modifier and modifiers in that order; -1 for the
      states outside the prefix. */
  function PrefixRank(s: PState): (r: int)
    ensures r >= 0 <==> s in {Initial, WithDocs, WithAnnotations, WithAccessModifier, WithModifiers}
  {
    match s
    case Initial => 0
    case WithDocs => 1
    case WithAnnotations => 2
    case WithAccessModifier => 3
    case WithModifiers => 4
    case _ => -1
  }

  /** The prefix state a token of lexical label `l` belongs to, if any. */
  function PrefixFor(l: Lexical.Label): Option<PState> {
    match l
    case JavadocState => Some(WithDocs)
    case AnnotationState => Some(WithAnnotations)
    case AccessModifierState => Some(WithAccessModifier)
    case ModifierState => Some(WithModifiers)
    case _ => None
  }

  /** The prefix parts that may occur more than once in a row. */
  predicate Repeatable(s: PState) {
    s == WithAnnotations || s == WithModifiers
  }

  /** The prefix chain only moves forward: a prefix token is accepted when
      its part comes later than the current one, or is the same repeatable
      part; any step back or repeat of docs or access modifier is dead. */
  lemma PrefixChainForward(s: PState, e: TokenEvent)
    requires PrefixRank(s) >= 0
    requires PrefixFor(e.token.state).Some?
    ensures var t := PrefixFor(e.token.state).value;
      OnEvent(s, e) == Ok(if PrefixRank(s) < PrefixRank(t) || (s == t && Repeatable(t)) then t else Dead)
  {
  }

  /** After any non-empty prefix, a token outside the prefix starts the head:
      `class`, `interface`, a method's return type, or nothing. */
  lemma PrefixThenHead(s: PState, e: TokenEvent)
    requires PrefixRank(s) >= 1
    requires PrefixFor(e.token.state).None?
    ensures OnEvent(s, e) == OnEvent(Initial, e) || OnEvent(s, e) == Ok(Dead)
    ensures OnEvent(s, e) == Ok(Dead) <==>
      OnEvent(Initial, e) in {Ok(Dead), Ok(ClosedBracket), Ok(OpenBracket)}
  {
  }

  /** The initial state always moves on, so its run is cut after every
      step, and it dies exactly on the tokens no declaration can start with. */
  lemma InitialMovesOn(e: TokenEvent)
    ensures OnEvent(Initial, e).Ok?
    ensures OnEvent(Initial, e).value.Type() != InitialState
    ensures OnEvent(Initial, e) == Ok(Dead) <==>
      PrefixFor(e.token.state).None?
      && !e.HasText(Lexical.IdentifierState, "class")
      && !e.HasText(Lexical.IdentifierState, "interface")
      && !e.Has(Lexical.NameState)
      && !e.Has(Lexical.ClosedBracketState)
      && !e.Has(Lexical.OpenBracketState)
  {
  }

  /** The bracket states are the separated ones, and they, the class's `{`
      and the pretended delimiter and interface `{` all carry on exactly
      as the initial state would. */
  lemma BracketsActAsInitial(s: PState, e: TokenEvent)
    requires s in {ClassOpenBracket, ClosedBracket, OpenBracket,
                   Pretend(InterfaceMethodDelimiter), Pretend(InterfaceOpenBracketState)}
    ensures OnEvent(s, e) == OnEvent(Initial, e)
    ensures s.Separated() <==> s == ClosedBracket || s == OpenBracket
  {
  }

  /** Feed `ts[i..j]` one token at a time, each with the tokens after it as
      lookahead, stopping at the first failure. */
  function FeedTokens(s: PState, ts: seq<Lexical.Token>, i: nat, j: nat): Result<PState, Fault>
    requires i <= j <= |ts|
    decreases j - i
  {
    if i == j then Ok(s)
    else
      var t :- OnEvent(s, TokenEvent(ts[i], ts[i + 1..]));
      FeedTokens(t, ts, i + 1, j)
  }

  /** A stretch whose first token moves `s` to `t` is fed as the rest of
      the stretch fed from `t`. */
  lemma FeedOne(s: PState, ts: seq<Lexical.Token>, i: nat, n: nat, t: PState)
    requires i < n <= |ts|
    requires OnEvent(s, TokenEvent(ts[i], ts[i + 1..])) == Ok(t)
    ensures FeedTokens(s, ts, i, n) == FeedTokens(t, ts, i + 1, n)
  {
  }

  /** Feeding a stretch is feeding its two halves in turn. */
  lemma {:induction false} FeedSplit(s: PState, ts: seq<Lexical.Token>, i: nat, k: nat, j: nat)
    requires i <= k <= j <= |ts|
    ensures FeedTokens(s, ts, i, k).Ok? ==>
      FeedTokens(s, ts, i, j) == FeedTokens(FeedTokens(s, ts, i, k).value, ts, k, j)
    ensures FeedTokens(s, ts, i, k).Err? ==> FeedTokens(s, ts, i, j) == FeedTokens(s, ts, i, k)
    decreases k - i
  {
    if i < k {
      match OnEvent(s, TokenEvent(ts[i], ts[i + 1..]))
      case Ok(t) => FeedSplit(t, ts, i + 1, k, j);
      case Err(_) =>
    }
  }

  /** A one-token string of lexical label `l`. */
  function Tok(l: Lexical.Label, v: string): Lexical.Token {
    Lexical.Token(l, v)
  }

  /** `, Name` for every name: the tail of an implements or extends list. */
  function NameList(names: seq<string>): (r: seq<Lexical.Token>)
    ensures |r| == 2 * |names|
  {
    if |names| == 0 then []
    else [Tok(Lexical.DelimiterState, ","), Tok(Lexical.NameState, names[0])] + NameList(names[1..])
  }

  /** `kw N0 (, Nk)*`, or nothing for an empty list of names. */
  function KeywordList(kw: string, names: seq<string>): (r: seq<Lexical.Token>)
    ensures |r| == 2 * |names|
  {
    if |names| > 0 then [Tok(Lexical.IdentifierState, kw), Tok(Lexical.NameState, names[0])] + NameList(names[1..])
    else []
  }

  /** `class N [extends E] [implements I0 (, Ik)*] {`. */
  function ClassHeader(name: string, ext: Option<string>, impls: seq<string>): seq<Lexical.Token> {
    [Tok(Lexical.IdentifierState, "class"), Tok(Lexical.NameState, name)]
    + (if ext.Some? then [Tok(Lexical.IdentifierState, "extends"), Tok(Lexical.NameState, ext.value)] else [])
    + KeywordList("implements", impls)
    + [Tok(Lexical.OpenBracketState, "{")]
  }

  /** `interface N [extends E0 (, Ek)*] {`. */
  function InterfaceHeader(name: string, ext: seq<string>): seq<Lexical.Token> {
    [Tok(Lexical.IdentifierState, "interface"), Tok(Lexical.NameState, name)]
    + KeywordList("extends", ext)
    + [Tok(Lexical.OpenBracketState, "{")]
  }

  /** The state a list state moves to on the `{` that closes it. */
  function ListClosed(s: PState): PState {
    if s == ClassImplementsList then ClassOpenBracket else Pretend(InterfaceOpenBracketState)
  }

  /** From `i` on, `ts` holds the `, Name` pairs of `names` and then `{`. */
  predicate ListAt(ts: seq<Lexical.Token>, i: nat, names: seq<string>)
    ensures ListAt(ts, i, names) ==> i + 2 * |names| < |ts|
    decreases |names|
  {
    if |names| == 0 then
      i < |ts| && ts[i] == Tok(Lexical.OpenBracketState, "{")
    else
      i + 1 < |ts| && ts[i] == Tok(Lexical.DelimiterState, ",") && ts[i + 1].state == Lexical.NameState
      && ListAt(ts, i + 2, names[1..])
  }

  /** A stretch spelling `NameList(names)` and then `{` is such a list. */
  lemma {:induction false} NameListAt(ts: seq<Lexical.Token>, i: nat, names: seq<string>)
    requires i + 2 * |names| < |ts| && ts[i..i + 2 * |names|] == NameList(names)
    requires ts[i + 2 * |names|] == Tok(Lexical.OpenBracketState, "{")
    ensures ListAt(ts, i, names)
    decreases |names|
  {
    if |names| > 0 {
      var whole := ts[i..i + 2 * |names|];
      assert ts[i] == whole[0] && ts[i + 1] == whole[1];
      assert ts[i + 2..i + 2 * |names|] == whole[2..];
      NameListAt(ts, i + 2, names[1..]);
    }
  }

  /** A `, Name` pair leaves a list state where it was. */
  lemma ListStep(s: PState, ts: seq<Lexical.Token>, i: nat, n: nat, r: PState)
    requires s == ClassImplementsList || s == InterfaceExtendsList
    requires i + 2 <= n <= |ts| && ts[i] == Tok(Lexical.DelimiterState, ",") && ts[i + 1].state == Lexical.NameState
    requires FeedTokens(s, ts, i + 2, n) == Ok(r)
    ensures FeedTokens(s, ts, i, n) == Ok(r)
  {
    assert OnEvent(s, TokenEvent(ts[i], ts[i + 1..])) == Ok(Skip(s, false, 1, None));
    FeedPastName(s, s, ts, i, n);
  }

  /** A move into a one-token skip passes over the name that follows. */
  lemma FeedPastName(s: PState, t: PState, ts: seq<Lexical.Token>, i: nat, n: nat)
    requires i + 2 <= n <= |ts|
    requires OnEvent(s, TokenEvent(ts[i], ts[i + 1..])) == Ok(Skip(t, false, 1, None))
    ensures FeedTokens(s, ts, i, n) == FeedTokens(t, ts, i + 2, n)
  {
    var sk := Skip(t, false, 1, None);
    FeedOne(s, ts, i, n, sk);
    SkipPasses(t, TokenEvent(ts[i + 1], ts[i + 2..]));
    FeedOne(sk, ts, i + 1, n, t);
  }

  /** A quiet one-token skip moves on to its next state whatever the token. */
  lemma SkipPasses(t: PState, e: TokenEvent)
    ensures OnEvent(Skip(t, false, 1, None), e) == Ok(t)
  {
  }

  /** A list state leaves the list on `{`. */
  lemma ListCloses(s: PState, ts: seq<Lexical.Token>, i: nat)
    requires s == ClassImplementsList || s == InterfaceExtendsList
    requires i < |ts| && ts[i] == Tok(Lexical.OpenBracketState, "{")
    ensures FeedTokens(s, ts, i, i + 1) == Ok(ListClosed(s))
  {
    assert OnEvent(s, TokenEvent(ts[i], ts[i + 1..])) == Ok(ListClosed(s));
  }

  /** A list state reads `, Name` pairs, coming back to itself after each,
      and leaves the list on the closing `{`. */
  lemma {:induction false} ListThenBrace(s: PState, ts: seq<Lexical.Token>, i: nat, names: seq<string>)
    requires s == ClassImplementsList || s == InterfaceExtendsList
    requires ListAt(ts, i, names)
    ensures FeedTokens(s, ts, i, i + 2 * |names| + 1) == Ok(ListClosed(s))
    decreases |names|
  {
    if |names| == 0 {
      ListCloses(s, ts, i);
    } else {
      var n := i + 2 * |names| + 1;
      ListThenBrace(s, ts, i + 2, names[1..]);
      assert i + 2 + 2 * |names[1..]| + 1 == n;
      ListStep(s, ts, i, n, ListClosed(s));
    }
  }

  /** What a class header is left in after `extends E`: a skip that labels
      both tokens `ClassExtendsState` and then acts as `ClassImplementsState`. */
  function AfterExtends(): PState {
    Skip(ClassImplements, true, 1, Some(ClassExtendsState))
  }

  /** `extends` followed by a name is skipped as two `ClassExtendsState`
      tokens; the token after them is read as by `ClassImplementsState`. */
  lemma ExtendsCoversTwo(e0: TokenEvent, e1: TokenEvent, e2: TokenEvent)
    requires e0.HasText(Lexical.IdentifierState, "extends")
    requires |e0.rest| > 0 && e0.rest[0].state == Lexical.NameState
    ensures OnEvent(ClassName, e0).Ok? && OnEvent(ClassName, e0).value.Type() == ClassExtendsState
    ensures OnEvent(OnEvent(ClassName, e0).value, e1) == Ok(AfterExtends())
    ensures AfterExtends().Type() == ClassExtendsState
    ensures OnEvent(AfterExtends(), e2) == OnEvent(ClassImplements, e2)
  {
  }

  /** From `b` on, a class header holds its optional `implements` list and
      then `{`. */
  predicate ClassTailAt(ts: seq<Lexical.Token>, b: nat, impls: seq<string>) {
    if |impls| == 0 then
      b < |ts| && ts[b] == Tok(Lexical.OpenBracketState, "{")
    else
      b + 1 < |ts| && ts[b] == Tok(Lexical.IdentifierState, "implements")
      && ts[b + 1].state == Lexical.NameState && ListAt(ts, b + 2, impls[1..])
  }

  /** `{` right after the name or the extended class opens the class body. */
  lemma ClassOpens(x: PState, ts: seq<Lexical.Token>, b: nat)
    requires x == ClassName || x == AfterExtends()
    requires b < |ts| && ts[b] == Tok(Lexical.OpenBracketState, "{")
    ensures FeedTokens(x, ts, b, b + 1) == Ok(ClassOpenBracket)
  {
  }

  /** `implements Name` leaves a class header in its implements list. */
  lemma ImplementsStep(x: PState, ts: seq<Lexical.Token>, b: nat, n: nat, r: PState)
    requires x == ClassName || x == AfterExtends()
    requires b + 2 <= n <= |ts| && ts[b] == Tok(Lexical.IdentifierState, "implements") && ts[b + 1].state == Lexical.NameState
    requires FeedTokens(ClassImplementsList, ts, b + 2, n) == Ok(r)
    ensures FeedTokens(x, ts, b, n) == Ok(r)
  {
    ImplementsOpensList(x, TokenEvent(ts[b], ts[b + 1..]));
    FeedPastName(x, ClassImplementsList, ts, b, n);
  }

  /** `implements` followed by a name, after the name or the extended
      class, enters the implements list past the name. */
  lemma ImplementsOpensList(x: PState, e: TokenEvent)
    requires x == ClassName || x == AfterExtends()
    requires e.HasText(Lexical.IdentifierState, "implements") && e.NameFollows()
    ensures OnEvent(x, e) == Ok(Skip(ClassImplementsList, false, 1, None))
  {
    if x == ClassName {
      ClassNameMoves(e);
    } else {
      assert OnEvent(x, e) == OnEvent(ClassImplements, e);
      ClassImplementsMoves(e);
    }
  }

  /** `implements I0 (, Ik)* {` after the name or the extended class. */
  lemma ClassImplementsTail(x: PState, ts: seq<Lexical.Token>, b: nat, impls: seq<string>)
    requires x == ClassName || x == AfterExtends()
    requires |impls| > 0 && ClassTailAt(ts, b, impls)
    ensures FeedTokens(x, ts, b, b + 2 * |impls| + 1) == Ok(ClassOpenBracket)
  {
    ListThenBrace(ClassImplementsList, ts, b + 2, impls[1..]);
    ImplementsStep(x, ts, b, b + 2 * |impls| + 1, ClassOpenBracket);
  }

  /** After the name or the extended class, an optional `implements` list
      and the `{` that opens the class body. */
  lemma ClassTail(x: PState, ts: seq<Lexical.Token>, b: nat, impls: seq<string>)
    requires x == ClassName || x == AfterExtends()
    requires ClassTailAt(ts, b, impls)
    ensures FeedTokens(x, ts, b, b + 2 * |impls| + 1) == Ok(ClassOpenBracket)
  {
    if |impls| == 0 {
      ClassOpens(x, ts, b);
    } else {
      ClassImplementsTail(x, ts, b, impls);
    }
  }

  /** `extends E` and then the rest of a class header. */
  lemma ClassExtendsTail(ts: seq<Lexical.Token>, impls: seq<string>)
    requires 3 < |ts| && ts[2] == Tok(Lexical.IdentifierState, "extends") && ts[3].state == Lexical.NameState
    requires ClassTailAt(ts, 4, impls)
    ensures FeedTokens(ClassName, ts, 2, 5 + 2 * |impls|) == Ok(ClassOpenBracket)
  {
    ClassTail(AfterExtends(), ts, 4, impls);
    ExtendsStep(ts, 5 + 2 * |impls|);
  }

  /** `extends E` after a class's name waits for `implements`. */
  lemma ExtendsStep(ts: seq<Lexical.Token>, n: nat)
    requires 4 <= n <= |ts| && ts[2] == Tok(Lexical.IdentifierState, "extends") && ts[3].state == Lexical.NameState
    ensures FeedTokens(ClassName, ts, 2, n) == FeedTokens(AfterExtends(), ts, 4, n)
  {
    var e := TokenEvent(ts[2], ts[3..]);
    var sk := Skip(ClassImplements, true, 2, Some(ClassExtendsState));
    assert e.NameFollows();
    ClassNameMoves(e);
    FeedOne(ClassName, ts, 2, n, sk);
    SkipCounts(ClassImplements, true, 2, Some(ClassExtendsState), TokenEvent(ts[3], ts[4..]));
    FeedOne(sk, ts, 3, n, AfterExtends());
  }

  /** A skip with more than one token to go counts one down. */
  lemma SkipCounts(t: PState, activate: bool, count: nat, asState: Option<SynLabel>, e: TokenEvent)
    requires count > 1
    ensures OnEvent(Skip(t, activate, count, asState), e) == Ok(Skip(t, activate, count - 1, asState))
  {
  }

  /** `class Name` read from the start or after a declaration prefix, then
      the rest of the header. */
  lemma ClassKeywordAndName(s: PState, ts: seq<Lexical.Token>, n: nat, r: PState)
    requires PrefixRank(s) >= 0
    requires 2 <= n <= |ts| && ts[0] == Tok(Lexical.IdentifierState, "class") && ts[1].state == Lexical.NameState
    requires FeedTokens(ClassName, ts, 2, n) == Ok(r)
    ensures FeedTokens(s, ts, 0, n) == Ok(r)
  {
    PrefixMeetsKeyword(s, TokenEvent(ts[0], ts[1..]));
    FeedOne(s, ts, 0, n, Class);
    assert OnEvent(Class, TokenEvent(ts[1], ts[2..])) == Ok(ClassName);
    FeedOne(Class, ts, 1, n, ClassName);
  }

  /** Every declaration prefix state moves to `Class` on `class` and to
      `Interface` on `interface`. */
  lemma PrefixMeetsKeyword(s: PState, e: TokenEvent)
    requires PrefixRank(s) >= 0
    ensures e.HasText(Lexical.IdentifierState, "class") ==> OnEvent(s, e) == Ok(Class)
    ensures e.HasText(Lexical.IdentifierState, "interface") ==> OnEvent(s, e) == Ok(Interface)
  {
  }

  /** Where the parts of a keyword list closed by `{` sit, when it starts
      at position `b`. */
  lemma KeywordListAt(ts: seq<Lexical.Token>, b: nat, kw: string, names: seq<string>)
    requires b + 2 * |names| < |ts|
    requires ts[b..b + 2 * |names| + 1] == KeywordList(kw, names) + [Tok(Lexical.OpenBracketState, "{")]
    ensures |names| == 0 ==> ts[b] == Tok(Lexical.OpenBracketState, "{")
    ensures |names| > 0 ==>
      ts[b] == Tok(Lexical.IdentifierState, kw) && ts[b + 1].state == Lexical.NameState && ListAt(ts, b + 2, names[1..])
  {
    var kl := KeywordList(kw, names);
    var part := ts[b..b + 2 * |names| + 1];
    assert ts[b] == part[0];
    if |names| > 0 {
      var tail := NameList(names[1..]);
      assert kl == [Tok(Lexical.IdentifierState, kw), Tok(Lexical.NameState, names[0])] + tail;
      assert ts[b + 1] == part[1];
      assert part[2..2 * |names|] == kl[2..] == tail;
      forall x | 0 <= x < 2 * |names| - 2
        ensures ts[b + 2..b + 2 * |names|][x] == part[2..2 * |names|][x]
      {
        assert part[2 + x] == ts[b + 2 + x];
      }
      assert ts[b + 2..b + 2 * |names|] == part[2..2 * |names|];
      assert ts[b + 2 * |names|] == part[2 * |names|];
      NameListAt(ts, b + 2, names[1..]);
    }
  }

  /** Where the parts of a class header sit in it. */
  lemma ClassHeaderLayout(name: string, ext: Option<string>, impls: seq<string>, ts: seq<Lexical.Token>)
    requires ClassHeader(name, ext, impls) <= ts
    ensures var b := if ext.Some? then 4 else 2;
      && |ClassHeader(name, ext, impls)| == b + 2 * |impls| + 1
      && ts[0] == Tok(Lexical.IdentifierState, "class") && ts[1].state == Lexical.NameState
      && (ext.Some? ==> ts[2] == Tok(Lexical.IdentifierState, "extends") && ts[3].state == Lexical.NameState)
      && ClassTailAt(ts, b, impls)
  {
    var h := ClassHeader(name, ext, impls);
    var mid := if ext.Some? then [Tok(Lexical.IdentifierState, "extends"), Tok(Lexical.NameState, ext.value)] else [];
    var head := [Tok(Lexical.IdentifierState, "class"), Tok(Lexical.NameState, name)] + mid;
    var rest := KeywordList("implements", impls) + [Tok(Lexical.OpenBracketState, "{")];
    assert h == head + rest;
    var b := |head|;
    assert ts[..|h|] == h;
    assert ts[0] == h[0] && ts[1] == h[1];
    if ext.Some? {
      assert ts[2] == h[2] && ts[3] == h[3];
    }
    assert ts[b..|h|] == h[b..] == rest;
    KeywordListAt(ts, b, "implements", impls);
  }

  /** Every class header of the grammar, from the start or after a prefix,
      is read through to `ClassOpenBracketState` on its `{`. */
  lemma ClassHeaderAccepted(s: PState, name: string, ext: Option<string>, impls: seq<string>, ts: seq<Lexical.Token>)
    requires PrefixRank(s) >= 0
    requires ClassHeader(name, ext, impls) <= ts
    ensures FeedTokens(s, ts, 0, |ClassHeader(name, ext, impls)|) == Ok(ClassOpenBracket)
  {
    ClassHeaderLayout(name, ext, impls, ts);
    var n := |ClassHeader(name, ext, impls)|;
    if ext.Some? {
      assert n == 5 + 2 * |impls|;
      ClassExtendsTail(ts, impls);
      ClassKeywordAndName(s, ts, n, ClassOpenBracket);
    } else {
      assert n == 3 + 2 * |impls|;
      ClassTail(ClassName, ts, 2, impls);
      ClassKeywordAndName(s, ts, n, ClassOpenBracket);
    }
  }

  /** After an interface's name: `{`, or `extends` and a list closed by `{`. */
  predicate InterfaceTailAt(ts: seq<Lexical.Token>, ext: seq<string>) {
    if |ext| == 0 then
      2 < |ts| && ts[2] == Tok(Lexical.OpenBracketState, "{")
    else
      3 < |ts| && ts[2] == Tok(Lexical.IdentifierState, "extends")
      && ts[3].state == Lexical.NameState && ListAt(ts, 4, ext[1..])
  }

  /** Where the parts of an interface header sit in it. */
  lemma InterfaceHeaderLayout(name: string, ext: seq<string>, ts: seq<Lexical.Token>)
    requires InterfaceHeader(name, ext) <= ts
    ensures |InterfaceHeader(name, ext)| == 3 + 2 * |ext|
    ensures ts[0] == Tok(Lexical.IdentifierState, "interface") && ts[1].state == Lexical.NameState
    ensures InterfaceTailAt(ts, ext)
  {
    var h := InterfaceHeader(name, ext);
    var head := [Tok(Lexical.IdentifierState, "interface"), Tok(Lexical.NameState, name)];
    var rest := KeywordList("extends", ext) + [Tok(Lexical.OpenBracketState, "{")];
    assert h == head + rest;
    assert ts[..|h|] == h;
    assert ts[0] == h[0] && ts[1] == h[1];
    assert ts[2..|h|] == h[2..] == rest;
    KeywordListAt(ts, 2, "extends", ext);
  }

  /** `extends Name` leaves an interface header in its extends list. */
  lemma InterfaceExtendsStep(ts: seq<Lexical.Token>, n: nat, r: PState)
    requires 4 <= n <= |ts| && ts[2] == Tok(Lexical.IdentifierState, "extends") && ts[3].state == Lexical.NameState
    requires FeedTokens(InterfaceExtendsList, ts, 4, n) == Ok(r)
    ensures FeedTokens(InterfaceName, ts, 2, n) == Ok(r)
  {
    assert OnEvent(InterfaceName, TokenEvent(ts[2], ts[3..])) == Ok(Skip(InterfaceExtendsList, false, 1, None));
    FeedPastName(InterfaceName, InterfaceExtendsList, ts, 2, n);
  }

  /** `{` right after the interface's name opens the interface body. */
  lemma InterfaceOpens(ts: seq<Lexical.Token>)
    requires 2 < |ts| && ts[2] == Tok(Lexical.OpenBracketState, "{")
    ensures FeedTokens(InterfaceName, ts, 2, 3) == Ok(Pretend(InterfaceOpenBracketState))
  {
    assert OnEvent(InterfaceName, TokenEvent(ts[2], ts[3..])) == Ok(Pretend(InterfaceOpenBracketState));
  }

  /** After the interface's name, an optional `extends` list and the `{`
      that opens the interface body. */
  lemma InterfaceTail(ts: seq<Lexical.Token>, ext: seq<string>)
    requires InterfaceTailAt(ts, ext)
    ensures 3 + 2 * |ext| <= |ts|
    ensures FeedTokens(InterfaceName, ts, 2, 3 + 2 * |ext|) == Ok(Pretend(InterfaceOpenBracketState))
  {
    if |ext| == 0 {
      InterfaceOpens(ts);
    } else {
      InterfaceExtendsTail(ts, ext);
    }
  }

  /** `extends E0, ..., Ek {` after the interface's name is read through to
      the `{` that opens the interface body. */
  lemma InterfaceExtendsTail(ts: seq<Lexical.Token>, ext: seq<string>)
    requires |ext| > 0 && InterfaceTailAt(ts, ext)
    ensures 3 + 2 * |ext| <= |ts|
    ensures FeedTokens(InterfaceName, ts, 2, 3 + 2 * |ext|) == Ok(Pretend(InterfaceOpenBracketState))
  {
    var n := 3 + 2 * |ext|;
    ListThenBrace(InterfaceExtendsList, ts, 4, ext[1..]);
    assert 4 + 2 * |ext[1..]| + 1 == n;
    InterfaceExtendsStep(ts, n, ListClosed(InterfaceExtendsList));
  }

  /** `interface Name` read from the start or after a declaration prefix,
      then the rest of the header. */
  lemma InterfaceKeywordAndName(s: PState, ts: seq<Lexical.Token>, n: nat, r: PState)
    requires PrefixRank(s) >= 0
    requires 2 <= n <= |ts| && ts[0] == Tok(Lexical.IdentifierState, "interface") && ts[1].state == Lexical.NameState
    requires FeedTokens(InterfaceName, ts, 2, n) == Ok(r)
    ensures FeedTokens(s, ts, 0, n) == Ok(r)
  {
    PrefixMeetsKeyword(s, TokenEvent(ts[0], ts[1..]));
    FeedOne(s, ts, 0, n, Interface);
    assert OnEvent(Interface, TokenEvent(ts[1], ts[2..])) == Ok(InterfaceName);
    FeedOne(Interface, ts, 1, n, InterfaceName);
  }

  /** Tokens laid out as an interface header are read through to the `{`. */
  lemma InterfaceRead(s: PState, ts: seq<Lexical.Token>, ext: seq<string>)
    requires PrefixRank(s) >= 0
    requires InterfaceTailAt(ts, ext)
    requires ts[0] == Tok(Lexical.IdentifierState, "interface") && ts[1].state == Lexical.NameState
    ensures FeedTokens(s, ts, 0, 3 + 2 * |ext|) == Ok(Pretend(InterfaceOpenBracketState))
  {
    var n := 3 + 2 * |ext|;
    var r := Pretend(InterfaceOpenBracketState);
    InterfaceTail(ts, ext);
    assert 2 <= n <= |ts| && FeedTokens(InterfaceName, ts, 2, n) == Ok(r);
    InterfaceKeywordAndName(s, ts, n, r);
  }

  /** Every interface header of the grammar is read through to its `{`,
      which is labelled `InterfaceOpenBracketState`; the token after it is
      read as from the initial state. */
  lemma InterfaceHeaderAccepted(s: PState, name: string, ext: seq<string>, ts: seq<Lexical.Token>)
    requires PrefixRank(s) >= 0
    requires InterfaceHeader(name, ext) <= ts
    ensures FeedTokens(s, ts, 0, |InterfaceHeader(name, ext)|) == Ok(Pretend(InterfaceOpenBracketState))
    ensures Pretend(InterfaceOpenBracketState).Type() == InterfaceOpenBracketState
  {
    PretendShows(InterfaceOpenBracketState);
    InterfaceHeaderLayout(name, ext, ts);
    InterfaceRead(s, ts, ext);
  }

  /** `ReturnType Name (args)`: the head of a method declaration. */
  function MethodHeader(ret: string, name: string, args: string): seq<Lexical.Token> {
    [Tok(Lexical.NameState, ret), Tok(Lexical.NameState, name), Tok(Lexical.ArgumentsParenthesisState, args)]
  }

  /** A method head is read from the start or after a prefix. */
  lemma MethodHeaderAccepted(s: PState, ret: string, name: string, args: string, ts: seq<Lexical.Token>)
    requires PrefixRank(s) >= 0
    requires MethodHeader(ret, name, args) <= ts
    ensures FeedTokens(s, ts, 0, 3) == Ok(MethodArguments)
  {
    assert ts[..3] == MethodHeader(ret, name, args);
    assert ts[0] == Tok(Lexical.NameState, ret) && ts[1] == Tok(Lexical.NameState, name);
    assert ts[2] == Tok(Lexical.ArgumentsParenthesisState, args);
    assert OnEvent(s, TokenEvent(ts[0], ts[1..])) == Ok(MethodReturnType);
    assert OnEvent(MethodReturnType, TokenEvent(ts[1], ts[2..])) == Ok(MethodName);
    assert OnEvent(MethodName, TokenEvent(ts[2], ts[3..])) == Ok(MethodArguments);
  }

  /** After a method head only `;` (an interface method, labelled
      `InterfaceMethodDelimiter` and then read on as from the initial
      state) or `{` (a body) keep the declaration alive. */
  lemma MethodHeadEnds(e: TokenEvent)
    ensures OnEvent(MethodArguments, e).Ok?
    ensures OnEvent(MethodArguments, e).value == Dead <==>
      !e.HasText(Lexical.DelimiterState, ";") && !e.HasText(Lexical.OpenBracketState, "{")
    ensures e.HasText(Lexical.DelimiterState, ";") ==>
      OnEvent(MethodArguments, e).value.Type() == InterfaceMethodDelimiter
    ensures e.HasText(Lexical.OpenBracketState, "{") ==> OnEvent(MethodArguments, e) == Ok(MethodOpenBracket)
  {
  }

  /** `class` and `interface` must be followed by a name; any other token
      kills the declaration. */
  lemma KeywordNeedsName(e: TokenEvent)
    ensures OnEvent(Class, e) == Ok(Dead) <==> !e.Has(Lexical.NameState)
    ensures OnEvent(Interface, e) == Ok(Dead) <==> !e.Has(Lexical.NameState)
    ensures e.Has(Lexical.NameState) ==> OnEvent(Class, e) == Ok(ClassName)
    ensures e.Has(Lexical.NameState) ==> OnEvent(Interface, e) == Ok(InterfaceName)
  {
  }

  /** After a class's name only `extends` or `implements` followed by a
      name, or `{`, keep the declaration alive; the keyword with nothing
      after it raises, and every other token kills the declaration. */
  lemma ClassNameMoves(e: TokenEvent)
    ensures OnEvent(ClassName, e).Err? <==>
      (e.HasText(Lexical.IdentifierState, "extends") || e.HasText(Lexical.IdentifierState, "implements"))
      && |e.rest| == 0
    ensures OnEvent(ClassName, e) == Ok(Dead) <==>
      !e.HasText(Lexical.OpenBracketState, "{")
      && ((e.HasText(Lexical.IdentifierState, "extends") || e.HasText(Lexical.IdentifierState, "implements"))
          ==> |e.rest| > 0 && !e.NameFollows())
    ensures e.HasText(Lexical.IdentifierState, "extends") && e.NameFollows() ==>
      OnEvent(ClassName, e) == Ok(Skip(ClassImplements, true, 2, Some(ClassExtendsState)))
    ensures e.HasText(Lexical.IdentifierState, "implements") && e.NameFollows() ==>
      OnEvent(ClassName, e) == Ok(Skip(ClassImplementsList, false, 1, None))
    ensures e.HasText(Lexical.OpenBracketState, "{") ==> OnEvent(ClassName, e) == Ok(ClassOpenBracket)
  {
  }

  /** After `extends Name` only `implements` followed by a name, or `{`,
      keep a class declaration alive. */
  lemma ClassImplementsMoves(e: TokenEvent)
    ensures OnEvent(ClassImplements, e).Err? <==>
      e.HasText(Lexical.IdentifierState, "implements") && |e.rest| == 0
    ensures OnEvent(ClassImplements, e) == Ok(Dead) <==>
      !e.HasText(Lexical.OpenBracketState, "{")
      && (e.HasText(Lexical.IdentifierState, "implements") ==> |e.rest| > 0 && !e.NameFollows())
    ensures e.HasText(Lexical.IdentifierState, "implements") && e.NameFollows() ==>
      OnEvent(ClassImplements, e) == Ok(Skip(ClassImplementsList, false, 1, None))
    ensures e.HasText(Lexical.OpenBracketState, "{") ==> OnEvent(ClassImplements, e) == Ok(ClassOpenBracket)
  {
  }

  /** Inside an `implements` list only `,` followed by a name, or `{`, keep
      a class declaration alive. */
  lemma ClassImplementsListMoves(e: TokenEvent)
    ensures OnEvent(ClassImplementsList, e).Err? <==>
      e.HasText(Lexical.DelimiterState, ",") && |e.rest| == 0
    ensures OnEvent(ClassImplementsList, e) == Ok(Dead) <==>
      !e.HasText(Lexical.OpenBracketState, "{")
      && (e.HasText(Lexical.DelimiterState, ",") ==> |e.rest| > 0 && !e.NameFollows())
    ensures e.HasText(Lexical.DelimiterState, ",") && e.NameFollows() ==>
      OnEvent(ClassImplementsList, e) == Ok(Skip(ClassImplementsList, false, 1, None))
    ensures e.HasText(Lexical.OpenBracketState, "{") ==> OnEvent(ClassImplementsList, e) == Ok(ClassOpenBracket)
  {
  }

  /** After an interface's name only `extends` followed by a name, or `{`,
      keep the declaration alive; `implements` is not part of an interface
      header and kills it. */
  lemma InterfaceNameMoves(e: TokenEvent)
    ensures OnEvent(InterfaceName, e).Err? <==>
      e.HasText(Lexical.IdentifierState, "extends") && |e.rest| == 0
    ensures OnEvent(InterfaceName, e) == Ok(Dead) <==>
      !e.HasText(Lexical.OpenBracketState, "{")
      && (e.HasText(Lexical.IdentifierState, "extends") ==> |e.rest| > 0 && !e.NameFollows())
    ensures e.HasText(Lexical.IdentifierState, "extends") && e.NameFollows() ==>
      OnEvent(InterfaceName, e) == Ok(Skip(InterfaceExtendsList, false, 1, None))
    ensures e.HasText(Lexical.OpenBracketState, "{") ==>
      OnEvent(InterfaceName, e) == Ok(Pretend(InterfaceOpenBracketState))
  {
  }

  /** Inside an interface's `extends` list only `,` followed by a name, or
      `{`, keep the declaration alive. */
  lemma InterfaceExtendsListMoves(e: TokenEvent)
    ensures OnEvent(InterfaceExtendsList, e).Err? <==>
      e.HasText(Lexical.DelimiterState, ",") && |e.rest| == 0
    ensures OnEvent(InterfaceExtendsList, e) == Ok(Dead) <==>
      !e.HasText(Lexical.OpenBracketState, "{")
      && (e.HasText(Lexical.DelimiterState, ",") ==> |e.rest| > 0 && !e.NameFollows())
    ensures e.HasText(Lexical.DelimiterState, ",") && e.NameFollows() ==>
      OnEvent(InterfaceExtendsList, e) == Ok(Skip(InterfaceExtendsList, false, 1, None))
    ensures e.HasText(Lexical.OpenBracketState, "{") ==>
      OnEvent(InterfaceExtendsList, e) == Ok(Pretend(InterfaceOpenBracketState))
  {
  }

  /** How a token moves the brace depth of a method body. */
  function Delta(t: Lexical.Token): int {
    if t.state == Lexical.OpenBracketState then 1
    else if t.state == Lexical.ClosedBracketState then -1
    else 0
  }

  /** The net number of `{` over `}` in a token stretch. */
  function Balance(ts: seq<Lexical.Token>): int {
    if |ts| == 0 then 0 else Delta(ts[0]) + Balance(ts[1..])
  }

  /** Starting at depth `d`, no prefix of `ts[i..j]` closes more braces
      than are open. */
  predicate NeverBelow(d: int, ts: seq<Lexical.Token>, i: nat, j: nat)
    requires i <= j <= |ts|
  {
    forall k :: i < k <= j ==> d + Balance(ts[i..k]) >= 0
  }

  /** One token inside a body moves the depth by its `Delta`. */
  lemma BodyStep(depth: nat, e: TokenEvent)
    requires depth + Delta(e.token) >= 0
    ensures OnEvent(MethodBody(depth), e) == Ok(MethodBody(depth + Delta(e.token)))
  {
  }

  /** Peeling the first token off a stretch whose running depth never goes
      below zero: the depth after it is not negative, and the rest of the
      stretch keeps the same property from there. */
  lemma BodyAdvance(d: nat, ts: seq<Lexical.Token>, i: nat, j: nat)
    requires i < j <= |ts|
    requires NeverBelow(d, ts, i, j)
    ensures d + Delta(ts[i]) >= 0
    ensures NeverBelow(d + Delta(ts[i]), ts, i + 1, j)
    ensures Balance(ts[i..j]) == Delta(ts[i]) + Balance(ts[i + 1..j])
  {
    forall k | i < k <= j
      ensures Balance(ts[i..k]) == Delta(ts[i]) + Balance(ts[i + 1..k])
    {
      assert ts[i..k][1..] == ts[i + 1..k];
    }
    assert ts[i + 1..i + 1] == [];
    assert d + Balance(ts[i..i + 1]) >= 0;
    var next := i + 1;
    forall k | next < k <= j
      ensures d + Delta(ts[i]) + Balance(ts[next..k]) >= 0
    {
      assert d + Balance(ts[i..k]) >= 0;
    }
  }

  /** Inside a method body the state's depth is the number of braces opened
      and not yet closed, as long as no `}` has closed more than were open. */
  lemma {:induction false} BodyDepth(d: nat, ts: seq<Lexical.Token>, i: nat, j: nat)
    requires i <= j <= |ts|
    requires NeverBelow(d, ts, i, j)
    ensures d + Balance(ts[i..j]) >= 0
    ensures FeedTokens(MethodBody(d), ts, i, j) == Ok(MethodBody(d + Balance(ts[i..j])))
    decreases j - i
  {
    if i < j {
      BodyAdvance(d, ts, i, j);
      var d' := d + Delta(ts[i]);
      BodyStep(d, TokenEvent(ts[i], ts[i + 1..]));
      BodyDepth(d', ts, i + 1, j);
    } else {
      assert ts[i..j] == [];
    }
  }

  /** The first `}` that finds no open brace ends the body: the machine
      reports `ClosedBracketState` on it. */
  lemma {:induction false} BodyCloses(d: nat, ts: seq<Lexical.Token>, i: nat, j: nat)
    requires i <= j < |ts|
    requires NeverBelow(d, ts, i, j)
    requires d + Balance(ts[i..j]) == 0 && ts[j].state == Lexical.ClosedBracketState
    ensures FeedTokens(MethodBody(d), ts, i, j + 1) == Ok(ClosedBracket)
    decreases j - i
  {
    if i < j {
      BodyAdvance(d, ts, i, j);
      var d' := d + Delta(ts[i]);
      BodyStep(d, TokenEvent(ts[i], ts[i + 1..]));
      BodyCloses(d', ts, i + 1, j);
    } else {
      assert ts[i..j] == [];
      assert OnEvent(MethodBody(0), TokenEvent(ts[j], ts[j + 1..])) == Ok(ClosedBracket);
    }
  }

  /** The token right after a method's `{` only opens the body: it is not
      counted, so even a `{` there leaves the depth at 0, and a `}` there
      closes the method at once. */
  lemma FirstBodyTokenUncounted(e: TokenEvent)
    ensures OnEvent(MethodOpenBracket, e) ==
      Ok(if e.Has(Lexical.ClosedBracketState) then ClosedBracket else MethodBody(0))
    ensures e.Has(Lexical.OpenBracketState) ==> OnEvent(MethodOpenBracket, e) == Ok(MethodBody(0))
  {
  }
}
