/** Character events, lexical tokens and the lexical partition
    (lexer/util.py; fmt/util.py holds a verbatim copy of the event). */
module LexerUtil {
  import opened Common

  /** The category a lexical token carries: the name of the lexer state
      (or of the label a skip pretends to be) that produced the run. */
  datatype Label =
    | InitialState | WhitespaceState | CommentState | MultilineCommentState
    | JavadocState | NameState | ModifierState | ArgumentsParenthesisState
    | AnnotationState | DelimiterState | OpenBracketState | ClosedBracketState
    | OpenParenthesisState | ClosedParenthesisState | IdentifierState
    | AccessModifierState

  /** `n` blanks, the filler of a lookahead that runs past the text. */
  function Blanks(n: nat): (r: string)
    ensures |r| == n && forall k :: 0 <= k < n ==> r[k] == ' '
  {
    Repeat(' ', n)
  }

  /** The event of meeting the character at `index` of `text`; an index at or
      past the end is the end-of-input sentinel. */
  datatype CharEvent = CharEvent(index: nat, text: string) {

    predicate Eof() {
      index >= |text|
    }

    /** `character_met`: the one-character string at `index`, or "" at the end. */
    function Char(): (r: string)
      ensures Eof() <==> r == ""
      ensures !Eof() ==> r == [text[index]]
    {
      if Eof() then "" else [text[index]]
    }

    /** The text strictly after the current character (never consumed). */
    function Rest(): (r: string)
      ensures index < |text| ==> r == text[index + 1..]
      ensures index >= |text| ==> r == ""
    {
      if index < |text| then text[index + 1..] else ""
    }

    /** The current character is `c`. */
    predicate Is(c: char) {
      !Eof() && text[index] == c
    }

    /** The current character exists and satisfies `p`. */
    predicate Satisfies(p: char -> bool) {
      !Eof() && p(text[index])
    }

    /** The next `n` characters, padded with blanks past the end of the text. */
    function Lookahead(n: nat): (r: string)
      ensures |r| == n
      ensures forall k :: 0 <= k < n ==>
        r[k] == if index + 1 + k < |text| then text[index + 1 + k] else ' '
    {
      var head := PySliceTo(Rest(), n);
      head + Blanks(n - |head|)
    }

    /** `is_start_of(s)`: `s` occurs in the text at the index; the empty
        string only at end of input. `StartOfAsWritten` shows this is the
        source's test of the current character followed by the next
        `|s| - 1` characters. */
    function IsStartOf(s: string): (r: bool)
      ensures r && |s| > 0 ==> Is(s[0])
    {
      if |s| == 0 then Eof()
      else index + |s| <= |text| && text[index..index + |s|] == s
    }
  }

  /** The character met followed by the next `n - 1` characters is the
      text's slice of length `n` at the index, wherever that slice exists. */
  lemma StartSlice(e: CharEvent, n: nat)
    requires 0 < n && e.index + n <= |e.text|
    ensures e.Char() + PySliceTo(e.Rest(), n - 1) == e.text[e.index..e.index + n]
  {
    var tail := PySliceTo(e.Rest(), n - 1);
    forall k | 0 <= k < n - 1
      ensures tail[k] == e.text[e.index + 1 + k]
    {
      assert tail[k] == e.Rest()[k];
    }
    assert tail == e.text[e.index + 1..e.index + n];
    assert [e.text[e.index]] + e.text[e.index + 1..e.index + n] == e.text[e.index..e.index + n];
  }

  /** `is_start_of` as written, the current character followed by the next
      `|s| - 1` characters (a Python slice, so `|s| - 1` may be -1), holds
      exactly when `s` occurs in the text at the index, and for the empty
      string exactly at end of input. */
  lemma StartOfAsWritten(e: CharEvent, s: string)
    ensures e.IsStartOf(s) <==> e.Char() + PySliceTo(e.Rest(), |s| - 1) == s
  {
    var got := e.Char() + PySliceTo(e.Rest(), |s| - 1);
    if |s| > 0 && e.index + |s| <= |e.text| {
      StartSlice(e, |s|);
    } else if |s| > 0 {
      assert |got| < |s|;
    }
  }

  /** A run of the lexical partition: its category and its text. */
  datatype Token = Token(state: Label, value: string)

  /** A flushed run as the lexer driver keeps it: the label and the list of
      one-character strings met while the run lasted. */
  datatype Run = Run(state: Label, series: seq<string>)

  /** `LexerPartition.__init__`: join each run's characters into one token. */
  function Build(runs: seq<Run>): (r: seq<Token>)
    ensures |r| == |runs|
    ensures forall k :: 0 <= k < |runs| ==>
      r[k].state == runs[k].state && r[k].value == Join(runs[k].series)
  {
    if |runs| == 0 then []
    else Build(runs[..|runs| - 1]) + [Token(runs[|runs| - 1].state, Join(runs[|runs| - 1].series))]
  }

  /** The text a token sequence spells out. */
  function Text(ts: seq<Token>): string {
    if |ts| == 0 then "" else Text(ts[..|ts| - 1]) + ts[|ts| - 1].value
  }

  /** The text a run sequence spells out. */
  function RunsText(runs: seq<Run>): string {
    if |runs| == 0 then "" else RunsText(runs[..|runs| - 1]) + Join(runs[|runs| - 1].series)
  }

  /** Building the partition loses no character and adds none. */
  lemma {:induction false} BuildLossless(runs: seq<Run>)
    ensures Text(Build(runs)) == RunsText(runs)
  {
    if |runs| > 0 {
      BuildLossless(runs[..|runs| - 1]);
      assert Build(runs)[..|runs| - 1] == Build(runs[..|runs| - 1]);
    }
  }

  /** `exclude(*labels)`: keep exactly the tokens whose label is not excluded. */
  function Exclude(ts: seq<Token>, labels: set<Label>): (r: seq<Token>)
    ensures |r| <= |ts|
    ensures forall t :: t in r <==> t in ts && t.state !in labels
  {
    if |ts| == 0 then []
    else if ts[|ts| - 1].state in labels then Exclude(ts[..|ts| - 1], labels)
    else Exclude(ts[..|ts| - 1], labels) + [ts[|ts| - 1]]
  }

  /** Exclusion works token by token: it distributes over concatenation,
      so it keeps the surviving tokens in their original order. */
  lemma {:induction false} ExcludeDistributes(a: seq<Token>, b: seq<Token>, labels: set<Label>)
    ensures Exclude(a + b, labels) == Exclude(a, labels) + Exclude(b, labels)
    decreases |b|
  {
    if |b| == 0 {
      assert a + b == a;
    } else {
      assert (a + b)[..|a + b| - 1] == a + b[..|b| - 1];
      ExcludeDistributes(a, b[..|b| - 1], labels);
    }
  }

  /** Excluding the same labels twice is excluding them once. */
  lemma {:induction false} ExcludeIdempotent(ts: seq<Token>, labels: set<Label>)
    ensures Exclude(Exclude(ts, labels), labels) == Exclude(ts, labels)
  {
    if |ts| > 0 {
      var init := ts[..|ts| - 1];
      ExcludeIdempotent(init, labels);
      if ts[|ts| - 1].state !in labels {
        ExcludeDistributes(Exclude(init, labels), [ts[|ts| - 1]], labels);
        assert Exclude([ts[|ts| - 1]], labels) == [ts[|ts| - 1]] by {
          assert [ts[|ts| - 1]][..0] == [];
        }
      }
    }
  }

  /** `state_at(i)`: the label at Python index `i`, or `None` when out of range. */
  function StateAt(ts: seq<Token>, i: int): (r: Option<Label>)
    ensures i >= |ts| || i < -|ts| <==> r.None?
    ensures 0 <= i < |ts| ==> r == Some(ts[i].state)
    ensures -|ts| <= i < 0 ==> r == Some(ts[|ts| + i].state)
  {
    match PyIndex(ts, i)
    case Some(t) => Some(t.state)
    case None => None
  }

  /** `value_at(i)`: the text at Python index `i`, or `None` when out of range. */
  function ValueAt(ts: seq<Token>, i: int): (r: Option<string>)
    ensures i >= |ts| || i < -|ts| <==> r.None?
    ensures 0 <= i < |ts| ==> r == Some(ts[i].value)
    ensures -|ts| <= i < 0 ==> r == Some(ts[|ts| + i].value)
  {
    match PyIndex(ts, i)
    case Some(t) => Some(t.value)
    case None => None
  }

  /** `token_at(i)`: the token at Python index `i`, or `None` when out of range. */
  function TokenAt(ts: seq<Token>, i: int): (r: Option<Token>)
    ensures i >= |ts| || i < -|ts| <==> r.None?
    ensures 0 <= i < |ts| ==> r == Some(ts[i])
    ensures -|ts| <= i < 0 ==> r == Some(ts[|ts| + i])
  {
    PyIndex(ts, i)
  }

  /** A negative index reaches the same token as its non-negative twin, and
      the three lookups agree with each other wherever a token exists. */
  lemma LookupsWrap(ts: seq<Token>, i: int)
    requires 0 <= i < |ts|
    ensures TokenAt(ts, i - |ts|) == TokenAt(ts, i)
    ensures StateAt(ts, i - |ts|) == Some(TokenAt(ts, i).value.state)
    ensures ValueAt(ts, i - |ts|) == Some(TokenAt(ts, i).value.value)
  {
  }
}
