/** The structure builder of parser/parser.py: it recognises class and
    method heads in the filtered lexical partition, reads the declaration
    prefix in front of each head backwards, and nests classes and methods
    with a stack. */
module DocParser {
  import opened Common
  import opened LexerUtil
  import LexerFmt

  // ---------------------------------------------------------------------
  // Heads
  // ---------------------------------------------------------------------

  /** `_is_class_at_index`: the token at `i` is the identifier `class`. */
  function IsClassAt(ts: seq<Token>, i: nat): (r: bool)
    ensures r <==> i < |ts| && ts[i] == Token(IdentifierState, "class")
  {
    StateAt(ts, i) == Some(IdentifierState) && ValueAt(ts, i) == Some("class")
  }

  /** `_is_method_at_index`: a return type, a name, an argument list and the
      `{` that opens the body, in four consecutive tokens from `i`. */
  function IsMethodAt(ts: seq<Token>, i: nat): (r: bool)
    ensures r <==> (i + 3 < |ts|
                    && ts[i].state == NameState && ts[i + 1].state == NameState
                    && ts[i + 2].state == ArgumentsParenthesisState && ts[i + 3].state == OpenBracketState)
  {
    StateAt(ts, i) == Some(NameState)
    && StateAt(ts, i + 1) == Some(NameState)
    && StateAt(ts, i + 2) == Some(ArgumentsParenthesisState)
    && StateAt(ts, i + 3) == Some(OpenBracketState)
  }

  // ---------------------------------------------------------------------
  // Backward scans
  //
  // The backward scans index the partition with Python indices that may go
  // negative, where `state_at(-1)` is the last token and anything before
  // `-len` is `None`. Laid over `ts + ts`, Python index `i` of `ts` is
  // position `i + |ts|`, and every index Python accepts lands inside it; the
  // scans below work on such a doubled sequence `w` and plain positions.
  // ---------------------------------------------------------------------

  /** The doubled partition the backward scans walk. */
  function Wrap(ts: seq<Token>): (w: seq<Token>)
    ensures |w| == 2 * |ts|
    ensures forall q {:trigger w[q]} :: 0 <= q < |w| ==> w[q] == ts[if q < |ts| then q else q - |ts|]
  {
    ts + ts
  }

  /** Position `q` of `w` holds a token labelled `kind`; positions off
      either end hold none. */
  predicate Is(w: seq<Token>, q: int, kind: Label) {
    0 <= q < |w| && w[q].state == kind
  }

  /** `state_at(i) == kind` on a partition is `Is` on its doubled copy. */
  lemma StateAtIsWrapped(ts: seq<Token>, i: int, kind: Label)
    requires i < |ts|
    ensures StateAt(ts, i) == Some(kind) <==> Is(Wrap(ts), i + |ts|, kind)
  {
  }

  /** Where a backward `while state_at(i) == kind: ...; i -= 1` loop started
      at position `q` stops, plus one: the first position of the run of
      `kind` tokens that ends at `q`, or `q + 1` when there is none. */
  function RunStart(w: seq<Token>, q: int, kind: Label): (s: int)
    requires -1 <= q < |w|
    ensures 0 <= s <= q + 1
    ensures !Is(w, s - 1, kind)
    decreases q + 1
  {
    if Is(w, q, kind) then RunStart(w, q - 1, kind) else q + 1
  }

  /** Every position of the run `RunStart` finds holds a `kind` token. */
  lemma {:induction false} RunShape(w: seq<Token>, q: int, kind: Label)
    requires -1 <= q < |w|
    ensures forall x :: RunStart(w, q, kind) <= x <= q ==> Is(w, x, kind)
    decreases q + 1
  {
    if Is(w, q, kind) {
      RunShape(w, q - 1, kind);
    }
  }

  /** Four adjacent slices make up the slice they span. */
  lemma AdjacentSlices<T>(w: seq<T>, lo: int, b1: int, b2: int, b3: int, hi: int)
    requires 0 <= lo <= b1 <= b2 <= b3 <= hi <= |w|
    ensures w[lo..b1] + w[b1..b2] + w[b2..b3] + w[b3..hi] == w[lo..hi]
  {
    assert w[lo..b1] + w[b1..b2] == w[lo..b2];
    assert w[lo..b2] + w[b2..b3] == w[lo..b3];
  }

  /** The values of a token sequence, in order. */
  function Values(ts: seq<Token>): (r: seq<string>)
    ensures |r| == |ts| && forall k :: 0 <= k < |ts| ==> r[k] == ts[k].value
  {
    seq(|ts|, k requires 0 <= k < |ts| => ts[k].value)
  }

  /** Where the parts of a declaration prefix start in the doubled
      partition, in source order: the Javadoc comment, the annotations, the
      access modifier and the modifiers. Each part runs up to where the next
      one starts, and the modifiers run up to the head. */
  datatype Starts = Starts(docs: int, annotations: int, access: int, modifiers: int)

  /** The prefix in front of the head token at position `h` of `w`, read
      the way the prefix chain of the syntactic states allows it: the
      modifiers right before the head, an access modifier right before them
      if there is one, the annotations right before that, and a Javadoc
      comment right before those if there is one. Each part is as long as
      it can be. */
  function PrefixBefore(w: seq<Token>, h: int): (p: Starts)
    requires 0 <= h <= |w|
    ensures 0 <= p.docs <= p.annotations <= p.access <= p.modifiers <= h
    ensures p.annotations - p.docs <= 1 && p.modifiers - p.access <= 1
  {
    var ms := RunStart(w, h - 1, ModifierState);
    var acc := if Is(w, ms - 1, AccessModifierState) then ms - 1 else ms;
    var ns := RunStart(w, acc - 1, AnnotationState);
    var ds := if Is(w, ns - 1, JavadocState) then ns - 1 else ns;
    Starts(ds, ns, acc, ms)
  }

  /** The prefix `PrefixBefore` finds is the one the prefix chain allows:
      each part holds tokens of its kind only, and no part could reach
      further back. */
  lemma PrefixShape(w: seq<Token>, h: int)
    requires 0 <= h <= |w|
    ensures var p := PrefixBefore(w, h);
      && (forall x :: p.modifiers <= x < h ==> Is(w, x, ModifierState))
      && (p.access < p.modifiers ==> Is(w, p.access, AccessModifierState))
      && (forall x :: p.annotations <= x < p.access ==> Is(w, x, AnnotationState))
      && (p.docs < p.annotations ==> Is(w, p.docs, JavadocState))
      && !Is(w, p.modifiers - 1, ModifierState)
      && (p.access == p.modifiers <==> !Is(w, p.modifiers - 1, AccessModifierState))
      && !Is(w, p.annotations - 1, AnnotationState)
      && (p.docs == p.annotations <==> !Is(w, p.annotations - 1, JavadocState))
  {
    var p := PrefixBefore(w, h);
    RunShape(w, h - 1, ModifierState);
    RunShape(w, p.access - 1, AnnotationState);
  }

  /** Where each part of the prefix starts, one backward scan after another. */
  lemma PrefixScans(w: seq<Token>, h: int)
    requires 0 <= h <= |w|
    ensures var p := PrefixBefore(w, h);
      && p.modifiers == RunStart(w, h - 1, ModifierState)
      && p.access == (if Is(w, p.modifiers - 1, AccessModifierState) then p.modifiers - 1 else p.modifiers)
      && p.annotations == RunStart(w, p.access - 1, AnnotationState)
      && p.docs == (if Is(w, p.annotations - 1, JavadocState) then p.annotations - 1 else p.annotations)
  {
  }

  // ---------------------------------------------------------------------
  // Class detection
  // ---------------------------------------------------------------------

  /** The tokens `from_tokens` receives for a class: the prefix before the
      `class` keyword in source order, and the tokens after it. How they
      become a class record is not part of this model. */
  datatype ClassHead = ClassHead(before: seq<Token>, after: seq<Token>)

  /** The forward scan of `_detect_class`: the tokens from `i` up to, not
      including, the first `{`, or to the end. */
  function UpToBrace(ts: seq<Token>, i: nat): (r: seq<Token>)
    requires i <= |ts|
    ensures i + |r| <= |ts| && r == ts[i..i + |r|]
    ensures forall k :: 0 <= k < |r| ==> r[k].state != OpenBracketState
    ensures i + |r| == |ts| || ts[i + |r|].state == OpenBracketState
    decreases |ts| - i
  {
    if StateAt(ts, i).None? || StateAt(ts, i) == Some(OpenBracketState) then []
    else [TokenAt(ts, i).value] + UpToBrace(ts, i + 1)
  }

  /** The run of modifiers in front of a head at position `at` of the
      doubled partition cannot reach back past the head's first copy. */
  lemma ModifiersStop(ts: seq<Token>, i: nat)
    requires i < |ts| && ts[i].state != ModifierState
    ensures i + 1 <= RunStart(Wrap(ts), i + |ts| - 1, ModifierState)
  {
    var w := Wrap(ts);
    RunShape(w, i + |ts| - 1, ModifierState);
    assert w[i] == ts[i] && !Is(w, i, ModifierState);
  }

  /** `_detect_class` at the `class` keyword at `c`, with its index
      bookkeeping: each backward loop leaves the index one step short of
      the run it scanned and the next line moves it forward again, and
      when no access modifier is found it moves one more step so that the
      annotation scan starts right before the modifiers. The tokens it
      collects before the keyword are exactly the prefix the prefix chain
      allows, in source order, and those after it run up to the first `{`. */
  function DetectClass(ts: seq<Token>, c: nat): (r: ClassHead)
    requires IsClassAt(ts, c)
    ensures var p := PrefixBefore(Wrap(ts), c + |ts|); r.before == Wrap(ts)[p.docs..c + |ts|]
    ensures r.after == UpToBrace(ts, c + 1)
  {
    ClassHead(ClassPrefix(Wrap(ts), c + |ts|), UpToBrace(ts, c + 1))
  }

  /** The index bookkeeping of the backward half of `_detect_class`, on the
      doubled partition, for the keyword at position `at`, as the positions
      where the parts it collects start. After the modifier loop and its
      `i += 1` the index is at the first modifier; it moves one more step
      when no access modifier precedes them, so that the annotation loop,
      which reads two steps back, starts right before the modifiers, and
      the Javadoc check, three steps back, right before the annotations. */
  function ClassScan(w: seq<Token>, at: int): (c: Starts)
    requires 0 <= at <= |w|
    ensures 0 <= c.docs <= c.annotations <= c.access <= c.modifiers <= at
  {
    var i := RunStart(w, at - 1, ModifierState);
    var i' := if Is(w, i - 1, AccessModifierState) then i else i + 1;
    var s := RunStart(w, i' - 2, AnnotationState);
    var i'' := s + 1 + 1;
    var d := if Is(w, i'' - 3, JavadocState) then i'' - 3 else i'' - 2;
    Starts(d, s, i' - 1, i)
  }

  /** The backward half of `_detect_class`: the Javadoc, annotations,
      access modifier and modifiers it collects, in source order. */
  function ClassPrefix(w: seq<Token>, at: int): (r: seq<Token>)
    requires 0 <= at <= |w|
    ensures r == w[PrefixBefore(w, at).docs..at]
  {
    var c := ClassScan(w, at);
    ClassScanAgrees(w, at);
    AdjacentSlices(w, c.docs, c.annotations, c.access, c.modifiers, at);
    w[c.docs..c.annotations] + w[c.annotations..c.access] + w[c.access..c.modifiers] + w[c.modifiers..at]
  }

  /** `_detect_class` scans back exactly as far as the prefix chain allows. */
  lemma ClassScanAgrees(w: seq<Token>, at: int)
    requires 0 <= at <= |w|
    ensures ClassScan(w, at) == PrefixBefore(w, at)
  {
    var p := PrefixBefore(w, at);
    PrefixScans(w, at);
    var i := RunStart(w, at - 1, ModifierState);
    if Is(w, i - 1, AccessModifierState) {
      assert p.access == i - 1;
    } else {
      assert p.access == i;
    }
  }

  // ---------------------------------------------------------------------
  // Method detection
  // ---------------------------------------------------------------------

  /** A method record: the docs, annotations, access modifier and modifiers
      of its prefix, then return type, name and the raw argument list
      (`parse_method_args`, which splits it, is not part of this model). */
  datatype MethodDoc = MethodDoc(docs: Option<string>, annotations: seq<string>, accessModifier: string,
                                 modifiers: seq<string>, returnType: string, name: string, args: string)

  /** The access modifier a method with prefix `p` reports: the one in the
      prefix, or `package-private`. */
  function AccessOf(w: seq<Token>, p: Starts): string
    requires 0 <= p.access <= p.modifiers <= |w|
  {
    if p.access < p.modifiers then w[p.access].value else "package-private"
  }

  /** The docs a method with prefix `p` reports: its Javadoc, if any. */
  function DocsOf(w: seq<Token>, p: Starts): Option<string>
    requires 0 <= p.docs <= p.annotations <= |w|
  {
    if p.docs < p.annotations then Some(w[p.docs].value) else None
  }

  /** The parts of a method record read from its prefix: docs,
      annotations, access modifier and modifiers. */
  datatype MethodPrefix = MethodPrefix(docs: Option<string>, annotations: seq<string>, accessModifier: string,
                                       modifiers: seq<string>)

  /** The parts of a method record read from the prefix that starts as
      `p` says and ends at the head at `at`. */
  function PartsOf(w: seq<Token>, p: Starts, at: int): MethodPrefix
    requires 0 <= p.docs <= p.annotations <= p.access <= p.modifiers <= at <= |w|
  {
    MethodPrefix(DocsOf(w, p), Values(w[p.annotations..p.access]), AccessOf(w, p), Values(w[p.modifiers..at]))
  }

  /** The prefix the prefix chain allows before the head at `at`, as the
      parts of a method record. */
  function PrefixParts(w: seq<Token>, at: int): MethodPrefix
    requires 0 <= at <= |w|
  {
    PartsOf(w, PrefixBefore(w, at), at)
  }

  /** The annotation loop and the Javadoc check of `_detect_method`,
      entered with index `i`: the annotations are read backwards from
      `i - 3`, and the Javadoc is looked for four steps before where the
      loop leaves the index. */
  function AnnotationsThenDocs(w: seq<Token>, i: int): (r: (seq<Token>, Option<string>))
    requires 2 <= i <= |w| + 2
    ensures var s := RunStart(w, i - 3, AnnotationState);
      && r.0 == w[s..i - 2]
      && r.1 == if Is(w, s - 1, JavadocState) then Some(w[s - 1].value) else None
  {
    var j := RunStart(w, i - 3, AnnotationState) + 2;
    var anns := w[j - 2..i - 2];
    var i2 := j + 1;
    var docs := if Is(w, i2 - 4, JavadocState) then Some(w[i2 - 4].value) else None;
    (anns, docs)
  }

  /** The backward half of `_detect_method` as written, on the doubled
      partition, for the return type at position `at`: after the modifier
      loop the index moves one step forward, but unlike `_detect_class` it
      does not move again when no access modifier is found, so the
      annotation scan and the Javadoc check then start one token too far
      back. */
  function MethodPrefixAsWritten(w: seq<Token>, at: int): MethodPrefix
    requires 0 <= at <= |w| && 1 <= RunStart(w, at - 1, ModifierState)
  {
    var i0 := RunStart(w, at - 1, ModifierState);
    var i1 := i0 + 1;
    var access := if Is(w, i1 - 2, AccessModifierState) then w[i1 - 2].value else "package-private";
    var ad := AnnotationsThenDocs(w, i1);
    MethodPrefix(ad.1, Values(ad.0), access, Values(w[i0..at]))
  }

  /** The index bookkeeping of the backward half of `_detect_method`, with
      the step `_detect_class` takes when no access modifier is found, as
      the positions where the parts it collects start. After the modifier
      loop and its `i += 1` the index is at the first modifier; the access
      check looks one step before it; the index then moves one step, or
      two without an access modifier, so that the annotation loop, which
      reads three steps back, starts right before the access modifier or
      the modifiers, and the Javadoc check, four steps back from where that
      loop leaves the index, right before the annotations. */
  function MethodScanFixed(w: seq<Token>, at: int): (c: Starts)
    requires 0 <= at <= |w| && 1 <= RunStart(w, at - 1, ModifierState)
    ensures 0 <= c.docs <= c.annotations <= c.access <= c.modifiers <= at
  {
    var i0 := RunStart(w, at - 1, ModifierState);
    var i1 := if Is(w, i0 - 1, AccessModifierState) then i0 + 1 else i0 + 2;
    var s := RunStart(w, i1 - 3, AnnotationState);
    var i2 := s + 2 + 1;
    var d := if Is(w, i2 - 4, JavadocState) then i2 - 4 else i2 - 3;
    Starts(d, s, i1 - 2, i0)
  }

  /** With the extra step, `_detect_method` scans back exactly as far as
      the prefix chain allows. */
  lemma MethodScanAgrees(w: seq<Token>, at: int)
    requires 0 <= at <= |w| && 1 <= RunStart(w, at - 1, ModifierState)
    ensures MethodScanFixed(w, at) == PrefixBefore(w, at)
  {
    var p := PrefixBefore(w, at);
    PrefixScans(w, at);
    var i0 := RunStart(w, at - 1, ModifierState);
    if Is(w, i0 - 1, AccessModifierState) {
      assert p.access == i0 - 1;
    } else {
      assert p.access == i0;
    }
  }

  /** The modifiers and the access modifier `_detect_method` as written
      reads are those of the prefix the prefix chain allows; when an access
      modifier is present, the annotations and the Javadoc are too. */
  lemma AsWrittenPartsAgree(w: seq<Token>, at: int)
    requires 0 <= at <= |w| && 1 <= RunStart(w, at - 1, ModifierState)
    ensures MethodPrefixAsWritten(w, at).modifiers == PrefixParts(w, at).modifiers
    ensures MethodPrefixAsWritten(w, at).accessModifier == PrefixParts(w, at).accessModifier
    ensures PrefixBefore(w, at).access < PrefixBefore(w, at).modifiers ==> MethodPrefixAsWritten(w, at) == PrefixParts(w, at)
  {
    var p := PrefixBefore(w, at);
    MethodScanAgrees(w, at);
    var i0 := RunStart(w, at - 1, ModifierState);
    assert i0 == p.modifiers;
    if p.access < p.modifiers {
      var s := RunStart(w, i0 - 2, AnnotationState);
      assert p.access == i0 - 1 && p.annotations == s;
    } else {
      assert p.access == i0;
    }
  }

  /** The backward half of `_detect_method` with the step `_detect_class`
      takes when no access modifier is found: every part is the matching
      part of the prefix the prefix chain allows. */
  function MethodPrefixFixed(w: seq<Token>, at: int): (r: MethodPrefix)
    requires 0 <= at <= |w| && 1 <= RunStart(w, at - 1, ModifierState)
    ensures r == PrefixParts(w, at)
  {
    var c := MethodScanFixed(w, at);
    MethodScanAgrees(w, at);
    PartsOf(w, c, at)
  }

  /** A method record from its head and its prefix parts. */
  function Record(ts: seq<Token>, i: nat, p: MethodPrefix): MethodDoc
    requires i + 2 < |ts|
  {
    MethodDoc(p.docs, p.annotations, p.accessModifier, p.modifiers, ts[i].value, ts[i + 1].value, ts[i + 2].value)
  }

  /** `_detect_method` as written, at the return type at `i`. */
  function DetectMethodAsWritten(ts: seq<Token>, i: nat): (r: MethodDoc)
    requires IsMethodAt(ts, i)
    ensures r.returnType == ts[i].value && r.name == ts[i + 1].value && r.args == ts[i + 2].value
  {
    ModifiersStop(ts, i);
    Record(ts, i, MethodPrefixAsWritten(Wrap(ts), i + |ts|))
  }

  /** `_detect_method` as written reports the modifiers and the access
      modifier the prefix chain allows. */
  lemma AsWrittenAgrees(ts: seq<Token>, i: nat)
    requires IsMethodAt(ts, i)
    ensures var r := DetectMethodAsWritten(ts, i); var q := PrefixParts(Wrap(ts), i + |ts|);
      r.modifiers == q.modifiers && r.accessModifier == q.accessModifier
  {
    ModifiersStop(ts, i);
    AsWrittenPartsAgree(Wrap(ts), i + |ts|);
  }

  /** With an access modifier present, `_detect_method` as written reports
      every prefix part the prefix chain allows. */
  lemma AsWrittenAgreesWithAccess(ts: seq<Token>, i: nat)
    requires IsMethodAt(ts, i)
    requires PrefixBefore(Wrap(ts), i + |ts|).access < PrefixBefore(Wrap(ts), i + |ts|).modifiers
    ensures DetectMethodAsWritten(ts, i) == Record(ts, i, PrefixParts(Wrap(ts), i + |ts|))
  {
    var w := Wrap(ts);
    var at := i + |ts|;
    ModifiersStop(ts, i);
    AsWrittenPartsAgree(w, at);
    var p := MethodPrefixAsWritten(w, at);
    assert p == PrefixParts(w, at);
    assert DetectMethodAsWritten(ts, i) == Record(ts, i, p);
  }


  /** `_detect_method` corrected, at the return type at `i`: the record
      holds the head's return type, name and arguments, and each prefix
      part is the one the prefix chain allows. */
  function DetectMethod(ts: seq<Token>, i: nat): (r: MethodDoc)
    requires IsMethodAt(ts, i)
    ensures r == Record(ts, i, PrefixParts(Wrap(ts), i + |ts|))
  {
    ModifiersStop(ts, i);
    Record(ts, i, MethodPrefixFixed(Wrap(ts), i + |ts|))
  }


  // ---------------------------------------------------------------------
  // Nesting
  // ---------------------------------------------------------------------

  /** A class record: its head, the positions in the flat class list of the
      classes nested in it, and its methods, each in the order met. */
  datatype ClassDoc = ClassDoc(head: ClassHead, innerClasses: seq<nat>, methods: seq<MethodDoc>)

  /** An entry of the nesting stack: a class, by its position in the flat
      list, or a method. */
  datatype Frame = InClass(index: nat) | InMethod(doc: MethodDoc)

  /** What `parse_docs` holds between tokens: the flat list of classes in
      the order met, and the nesting stack with its top last. */
  datatype Docs = Docs(classes: seq<ClassDoc>, stack: seq<Frame>)

  /** Why `parse_docs` stops: a method head with nothing open around it
      (the exception it raises), or a class or method head whose enclosing
      entry is a method, which has no member lists to take it. */
  datatype Abort = MethodOutsideClass(at: nat) | MemberOfMethod(at: nat)

  /** Every class the stack or an inner-class list refers to is in the flat
      list, and a class only nests classes met after it. */
  predicate WellFormed(d: Docs) {
    && (forall j :: 0 <= j < |d.stack| && d.stack[j].InClass? ==> d.stack[j].index < |d.classes|)
    && (forall t, j :: 0 <= t < |d.classes| && 0 <= j < |d.classes[t].innerClasses| ==>
          t < d.classes[t].innerClasses[j] < |d.classes|)
  }

  /** The top of the stack, if any. */
  function Top(d: Docs): Option<Frame> {
    if |d.stack| == 0 then None else Some(d.stack[|d.stack| - 1])
  }

  /** A class head `c` met at token `i`: it is added to the flat list, to
      the inner classes of the class on top of the stack if there is one,
      and pushed. */
  function OpenClass(d: Docs, c: ClassHead, i: nat): (r: Result<Docs, Abort>)
    requires WellFormed(d)
    ensures r.Ok? <==> !(Top(d).Some? && Top(d).value.InMethod?)
    ensures r.Err? ==> r.error == MemberOfMethod(i)
    ensures r.Ok? ==> WellFormed(r.value)
    ensures r.Ok? ==>
      && |r.value.classes| == |d.classes| + 1
      && r.value.classes[|d.classes|] == ClassDoc(c, [], [])
      && r.value.stack == d.stack + [InClass(|d.classes|)]
    ensures r.Ok? ==> forall t :: 0 <= t < |d.classes| ==>
      r.value.classes[t] ==
        if Top(d) == Some(InClass(t))
        then d.classes[t].(innerClasses := d.classes[t].innerClasses + [|d.classes|])
        else d.classes[t]
  {
    var k := |d.classes|;
    var added := ClassDoc(c, [], []);
    match Top(d)
    case None => Ok(Docs(d.classes + [added], d.stack + [InClass(k)]))
    case Some(InMethod(_)) => Err(MemberOfMethod(i))
    case Some(InClass(t)) =>
      var outer := d.classes[t].(innerClasses := d.classes[t].innerClasses + [k]);
      Ok(Docs(d.classes[t := outer] + [added], d.stack + [InClass(k)]))
  }

  /** A method head `m` met at token `i`: it is added to the methods of the
      class on top of the stack and pushed; with an empty stack the parse
      stops, and with a method on top (an anonymous class body, say) it
      stops with `MemberOfMethod`, since a method record has no method list. */
  function OpenMethod(d: Docs, m: MethodDoc, i: nat): (r: Result<Docs, Abort>)
    requires WellFormed(d)
    ensures r == Err(MethodOutsideClass(i)) <==> Top(d).None?
    ensures r == Err(MemberOfMethod(i)) <==> Top(d).Some? && Top(d).value.InMethod?
    ensures r.Ok? <==> Top(d).Some? && Top(d).value.InClass?
    ensures r.Ok? ==> WellFormed(r.value)
    ensures r.Ok? ==>
      && |r.value.classes| == |d.classes|
      && r.value.stack == d.stack + [InMethod(m)]
      && forall t :: 0 <= t < |d.classes| ==>
           r.value.classes[t] ==
             if Top(d) == Some(InClass(t))
             then d.classes[t].(methods := d.classes[t].methods + [m])
             else d.classes[t]
  {
    match Top(d)
    case None => Err(MethodOutsideClass(i))
    case Some(InMethod(_)) => Err(MemberOfMethod(i))
    case Some(InClass(t)) =>
      var outer := d.classes[t].(methods := d.classes[t].methods + [m]);
      Ok(Docs(d.classes[t := outer], d.stack + [InMethod(m)]))
  }

  /** A `}`: the stack loses its top entry; popping an empty stack only
      reports the stray bracket and changes nothing. */
  function Close(d: Docs): (r: Docs)
    requires WellFormed(d)
    ensures WellFormed(r) && r.classes == d.classes
    ensures |r.stack| == if |d.stack| == 0 then 0 else |d.stack| - 1
    ensures r.stack == d.stack[..|r.stack|]
  {
    d.(stack := if |d.stack| == 0 then [] else d.stack[..|d.stack| - 1])
  }

  /** What the loop of `parse_docs` sees at one token: the tests of its
      body are tried in order, a class head first, then a method head, then
      a `}`. */
  datatype Event = ClassHeadAt(head: ClassHead) | MethodHeadAt(doc: MethodDoc) | Closing | Other

  /** The event at token `i`. */
  function Classify(ts: seq<Token>, i: nat): (e: Event)
    requires i < |ts|
    ensures e.ClassHeadAt? <==> IsClassAt(ts, i)
    ensures e.MethodHeadAt? <==> !IsClassAt(ts, i) && IsMethodAt(ts, i)
    ensures e == Closing <==> !IsClassAt(ts, i) && !IsMethodAt(ts, i) && ts[i].state == ClosedBracketState
  {
    if IsClassAt(ts, i) then ClassHeadAt(DetectClass(ts, i))
    else if IsMethodAt(ts, i) then MethodHeadAt(DetectMethod(ts, i))
    else if ts[i].state == ClosedBracketState then Closing
    else Other
  }

  /** The events of a whole token sequence, one per token. */
  function Events(ts: seq<Token>): (es: seq<Event>)
    ensures |es| == |ts| && forall i :: 0 <= i < |ts| ==> es[i] == Classify(ts, i)
  {
    seq(|ts|, i requires 0 <= i < |ts| => Classify(ts, i))
  }

  /** The event at token `i` as the loop of `parse_docs` is written: the
      method record is the one `_detect_method` reads without the extra
      step. */
  function ClassifyAsWritten(ts: seq<Token>, i: nat): (e: Event)
    requires i < |ts|
  {
    if IsClassAt(ts, i) then ClassHeadAt(DetectClass(ts, i))
    else if IsMethodAt(ts, i) then MethodHeadAt(DetectMethodAsWritten(ts, i))
    else if ts[i].state == ClosedBracketState then Closing
    else Other
  }

  /** The events of a whole token sequence as the loop is written. */
  function EventsAsWritten(ts: seq<Token>): (es: seq<Event>)
    ensures |es| == |ts| && forall i :: 0 <= i < |ts| ==> es[i] == ClassifyAsWritten(ts, i)
  {
    seq(|ts|, i requires 0 <= i < |ts| => ClassifyAsWritten(ts, i))
  }

  /** The loop as written sees the same event as the corrected one at every
      token, except in the method record: there the head, the modifiers
      and the access modifier are the same, and with an access modifier
      present the whole record is. */
  lemma ClassifyAgrees(ts: seq<Token>, i: nat)
    requires i < |ts|
    ensures ClassifyAsWritten(ts, i).MethodHeadAt? <==> Classify(ts, i).MethodHeadAt?
    ensures !Classify(ts, i).MethodHeadAt? ==> ClassifyAsWritten(ts, i) == Classify(ts, i)
    ensures Classify(ts, i).MethodHeadAt? ==>
      var m, m' := Classify(ts, i).doc, ClassifyAsWritten(ts, i).doc;
      && m'.modifiers == m.modifiers && m'.accessModifier == m.accessModifier
      && m'.returnType == m.returnType && m'.name == m.name && m'.args == m.args
    ensures Classify(ts, i).MethodHeadAt? && PrefixBefore(Wrap(ts), i + |ts|).access < PrefixBefore(Wrap(ts), i + |ts|).modifiers
      ==> ClassifyAsWritten(ts, i) == Classify(ts, i)
  {
    if !IsClassAt(ts, i) && IsMethodAt(ts, i) {
      AsWrittenAgrees(ts, i);
      if PrefixBefore(Wrap(ts), i + |ts|).access < PrefixBefore(Wrap(ts), i + |ts|).modifiers {
        AsWrittenAgreesWithAccess(ts, i);
      }
    }
  }

  /** One iteration of the loop of `parse_docs`, on the event at token `i`. */
  function Visit(e: Event, i: nat, d: Docs): (r: Result<Docs, Abort>)
    requires WellFormed(d)
    ensures r.Ok? ==> WellFormed(r.value)
    ensures r.Err? ==> (e.ClassHeadAt? || e.MethodHeadAt?) && r.error.at == i
    ensures r.Ok? ==> |r.value.classes| == |d.classes| + if e.ClassHeadAt? then 1 else 0
    ensures r.Ok? && (e.ClassHeadAt? || e.MethodHeadAt?) ==> |r.value.stack| == |d.stack| + 1
    ensures e == Closing ==> r.Ok? && |r.value.stack| == if |d.stack| == 0 then 0 else |d.stack| - 1
    ensures e == Other ==> r == Ok(d)
    ensures r.Ok? ==> forall t :: 0 <= t < |d.classes| ==> r.value.classes[t].head == d.classes[t].head
    ensures r.Ok? && e.ClassHeadAt? ==> r.value.classes[|d.classes|].head == e.head
  {
    match e
    case ClassHeadAt(c) => OpenClass(d, c, i)
    case MethodHeadAt(m) => OpenMethod(d, m, i)
    case Closing => Ok(Close(d))
    case Other => Ok(d)
  }

  /** The loop of `parse_docs` over the first `n` events, from an empty
      class list and an empty stack; an abort ends it. */
  function Fold(es: seq<Event>, n: nat): (r: Result<Docs, Abort>)
    requires n <= |es|
    ensures r.Ok? ==> WellFormed(r.value)
  {
    if n == 0 then Ok(Docs([], []))
    else
      var prev := Fold(es, n - 1);
      if prev.Err? then prev else Visit(es[n - 1], n - 1, prev.value)
  }

  /** The positions of the class heads among the first `n` events, in
      order. */
  function ClassPositions(es: seq<Event>, n: nat): (r: seq<nat>)
    requires n <= |es|
    ensures forall k :: 0 <= k < |r| ==> r[k] < n && es[r[k]].ClassHeadAt?
    ensures forall k, l :: 0 <= k < l < |r| ==> r[k] < r[l]
    ensures forall i :: 0 <= i < n && es[i].ClassHeadAt? ==> i in r
  {
    if n == 0 then []
    else ClassPositions(es, n - 1) + if es[n - 1].ClassHeadAt? then [n - 1] else []
  }

  /** The flat class list holds one record per class head, in the order
      met, each with the head read there. */
  lemma {:induction false} FoldCollectsClasses(es: seq<Event>, n: nat)
    requires n <= |es| && Fold(es, n).Ok?
    ensures var cs := Fold(es, n).value.classes; var ps := ClassPositions(es, n);
      |cs| == |ps| && forall k :: 0 <= k < |ps| ==> cs[k].head == es[ps[k]].head
  {
    if n > 0 {
      FoldCollectsClasses(es, n - 1);
      var prev := Fold(es, n - 1).value;
      var cs := Fold(es, n).value.classes;
      var ps := ClassPositions(es, n);
      var ps' := ClassPositions(es, n - 1);
      assert Fold(es, n) == Visit(es[n - 1], n - 1, prev);
      if es[n - 1].ClassHeadAt? {
        assert ps == ps' + [n - 1];
        assert cs[|ps'|].head == es[n - 1].head;
      } else {
        assert ps == ps';
      }
      forall k | 0 <= k < |ps|
        ensures cs[k].head == es[ps[k]].head
      {
        if k < |ps'| {
          assert ps[k] == ps'[k] && cs[k].head == prev.classes[k].head;
        }
      }
    }
  }

  /** Once the loop has stopped it stays stopped with the same reason. */
  lemma {:induction false} AbortSticks(es: seq<Event>, n: nat, m: nat)
    requires n <= m <= |es| && Fold(es, n).Err?
    ensures Fold(es, m) == Fold(es, n)
    decreases m - n
  {
    if n < m {
      AbortSticks(es, n, m - 1);
    }
  }

  /** Before the first class head nothing is open: the loop has either
      collected nothing, when no method head came first, or stopped at the
      first method head for want of a class around it. */
  lemma {:induction false} NothingOpenBeforeClass(es: seq<Event>, n: nat)
    requires n <= |es| && forall j :: 0 <= j < n ==> !es[j].ClassHeadAt?
    ensures Fold(es, n) == Ok(Docs([], [])) || Fold(es, n).Err?
    ensures Fold(es, n) == Ok(Docs([], [])) <==> forall j :: 0 <= j < n ==> !es[j].MethodHeadAt?
    ensures Fold(es, n).Err? ==>
      && Fold(es, n).error.MethodOutsideClass?
      && Fold(es, n).error.at < n && es[Fold(es, n).error.at].MethodHeadAt?
      && forall l :: 0 <= l < Fold(es, n).error.at ==> !es[l].MethodHeadAt?
  {
    if n > 0 {
      NothingOpenBeforeClass(es, n - 1);
      var prev := Fold(es, n - 1);
      if prev.Ok? {
        assert Top(prev.value).None?;
      }
    }
  }

  /** Method head `m` is met among the events strictly after position
      `from` and before `n`. */
  predicate MetAfter(es: seq<Event>, from: nat, n: nat, m: MethodDoc)
    requires n <= |es|
  {
    exists i :: from < i < n && es[i] == MethodHeadAt(m)
  }

  /** Every method a class record lists was met at a method head after the
      class's own head. */
  lemma {:induction false} FoldMethodsMet(es: seq<Event>, n: nat)
    requires n <= |es| && Fold(es, n).Ok?
    ensures var cs := Fold(es, n).value.classes; var ps := ClassPositions(es, n);
      |cs| == |ps| && forall t, j :: 0 <= t < |cs| && 0 <= j < |cs[t].methods| ==> MetAfter(es, ps[t], n, cs[t].methods[j])
  {
    FoldCollectsClasses(es, n);
    if n > 0 {
      FoldMethodsMet(es, n - 1);
      var prev := Fold(es, n - 1).value;
      var cs := Fold(es, n).value.classes;
      var ps := ClassPositions(es, n);
      var ps' := ClassPositions(es, n - 1);
      assert Fold(es, n) == Visit(es[n - 1], n - 1, prev);
      assert ps[..|ps'|] == ps';
      forall t, j | 0 <= t < |cs| && 0 <= j < |cs[t].methods|
        ensures MetAfter(es, ps[t], n, cs[t].methods[j])
      {
        if t < |prev.classes| && j < |prev.classes[t].methods| && cs[t].methods[j] == prev.classes[t].methods[j] {
          assert ps[t] == ps'[t];
          var i :| ps'[t] < i < n - 1 && es[i] == MethodHeadAt(prev.classes[t].methods[j]);
        } else {
          MethodJustMet(es, n, prev, t, j);
        }
      }
    }
  }

  /** A method entry the last step of the loop changed or added is the
      method head of that step, met after its class's head. */
  lemma MethodJustMet(es: seq<Event>, n: nat, prev: Docs, t: nat, j: nat)
    requires 0 < n <= |es| && Fold(es, n - 1) == Ok(prev) && Fold(es, n).Ok?
    requires |Fold(es, n).value.classes| == |ClassPositions(es, n)|
    requires |prev.classes| == |ClassPositions(es, n - 1)|
    requires t < |Fold(es, n).value.classes| && j < |Fold(es, n).value.classes[t].methods|
    requires !(t < |prev.classes| && j < |prev.classes[t].methods|
               && Fold(es, n).value.classes[t].methods[j] == prev.classes[t].methods[j])
    ensures es[n - 1].MethodHeadAt? && Fold(es, n).value.classes[t].methods[j] == es[n - 1].doc
    ensures ClassPositions(es, n)[t] < n - 1
  {
    var ps' := ClassPositions(es, n - 1);
    assert Fold(es, n) == Visit(es[n - 1], n - 1, prev);
    match es[n - 1]
    case ClassHeadAt(c) =>
      assert false;
    case MethodHeadAt(m) =>
      assert ClassPositions(es, n) == ps';
    case Closing =>
      assert false;
    case Other =>
      assert false;
  }

  /** Two method records that may differ only in their Javadoc and
      annotations. */
  predicate Alike(m: MethodDoc, m': MethodDoc) {
    && m.modifiers == m'.modifiers && m.accessModifier == m'.accessModifier
    && m.returnType == m'.returnType && m.name == m'.name && m.args == m'.args
  }

  /** Two events the loop treats alike: the same event, or two method heads
      whose records are alike. */
  predicate SameKind(a: Event, b: Event) {
    if a.MethodHeadAt? then b.MethodHeadAt? && Alike(a.doc, b.doc) else b == a
  }

  /** Two loop states alike but for method records: the same class heads
      and nesting, alike methods per class, and a stack with the same
      classes at the same depths. */
  predicate SameShape(d: Docs, e: Docs) {
    && |d.classes| == |e.classes| && |d.stack| == |e.stack|
    && (forall t :: 0 <= t < |d.classes| ==>
          && d.classes[t].head == e.classes[t].head
          && d.classes[t].innerClasses == e.classes[t].innerClasses
          && |d.classes[t].methods| == |e.classes[t].methods|
          && forall j :: 0 <= j < |d.classes[t].methods| ==> Alike(d.classes[t].methods[j], e.classes[t].methods[j]))
    && (forall j :: 0 <= j < |d.stack| ==>
          d.stack[j].InClass? == e.stack[j].InClass? && (d.stack[j].InClass? ==> d.stack[j] == e.stack[j]))
  }

  /** States alike have tops alike: both empty, or both a method, or the
      same class. */
  lemma TopsAlike(d: Docs, e: Docs)
    requires SameShape(d, e)
    ensures Top(d).None? <==> Top(e).None?
    ensures Top(d).Some? ==> (Top(d).value.InClass? <==> Top(e).value.InClass?)
    ensures Top(d).Some? && Top(d).value.InClass? ==> Top(e) == Top(d)
  {
    if |d.stack| > 0 {
      assert d.stack[|d.stack| - 1].InClass? == e.stack[|e.stack| - 1].InClass?;
    }
  }

  /** A class head opened in states alike raises alike or leaves states
      alike. */
  lemma OpenClassShapes(c: ClassHead, i: nat, d: Docs, e: Docs)
    requires WellFormed(d) && WellFormed(e) && SameShape(d, e)
    ensures OpenClass(d, c, i).Ok? <==> OpenClass(e, c, i).Ok?
    ensures OpenClass(d, c, i).Err? ==> OpenClass(d, c, i) == OpenClass(e, c, i)
    ensures OpenClass(d, c, i).Ok? ==> SameShape(OpenClass(d, c, i).value, OpenClass(e, c, i).value)
  {
    TopsAlike(d, e);
  }

  /** Method heads with alike records opened in states alike raise alike or
      leave states alike. */
  lemma OpenMethodShapes(m: MethodDoc, m': MethodDoc, i: nat, d: Docs, e: Docs)
    requires WellFormed(d) && WellFormed(e) && SameShape(d, e) && Alike(m, m')
    ensures OpenMethod(d, m, i).Ok? <==> OpenMethod(e, m', i).Ok?
    ensures OpenMethod(d, m, i).Err? ==> OpenMethod(d, m, i) == OpenMethod(e, m', i)
    ensures OpenMethod(d, m, i).Ok? ==> SameShape(OpenMethod(d, m, i).value, OpenMethod(e, m', i).value)
  {
    TopsAlike(d, e);
  }

  /** One iteration on events alike, from states alike, succeeds or stops
      alike and leaves states alike. */
  lemma VisitShapes(a: Event, b: Event, i: nat, d: Docs, e: Docs)
    requires WellFormed(d) && WellFormed(e) && SameKind(a, b) && SameShape(d, e)
    ensures Visit(a, i, d).Ok? <==> Visit(b, i, e).Ok?
    ensures Visit(a, i, d).Err? ==> Visit(a, i, d) == Visit(b, i, e)
    ensures Visit(a, i, d).Ok? ==> SameShape(Visit(a, i, d).value, Visit(b, i, e).value)
  {
    match a
    case ClassHeadAt(c) => OpenClassShapes(c, i, d, e);
    case MethodHeadAt(m) => OpenMethodShapes(m, b.doc, i, d, e);
    case Closing =>
    case Other =>
  }

  /** The loop over events alike succeeds or stops alike, and collects
      states alike. */
  lemma {:induction false} FoldShapes(es: seq<Event>, fs: seq<Event>, n: nat)
    requires n <= |es| == |fs| && forall i :: 0 <= i < n ==> SameKind(es[i], fs[i])
    ensures Fold(es, n).Ok? <==> Fold(fs, n).Ok?
    ensures Fold(es, n).Err? ==> Fold(es, n) == Fold(fs, n)
    ensures Fold(es, n).Ok? ==> SameShape(Fold(es, n).value, Fold(fs, n).value)
  {
    if n > 0 {
      FoldShapes(es, fs, n - 1);
      var d, e := Fold(es, n - 1), Fold(fs, n - 1);
      if d.Ok? {
        assert Fold(es, n) == Visit(es[n - 1], n - 1, d.value);
        assert Fold(fs, n) == Visit(fs[n - 1], n - 1, e.value);
        VisitShapes(es[n - 1], fs[n - 1], n - 1, d.value, e.value);
      } else {
        assert Fold(es, n) == d && Fold(fs, n) == e;
      }
    }
  }

  // ---------------------------------------------------------------------
  // parse_docs
  // ---------------------------------------------------------------------

  /** The token sequence `parse_docs` scans: the lexer's partition of the
      text without whitespace and initial-state runs. */
  function Scanned(text: string): (ts: seq<Token>)
    ensures forall t :: t in ts ==> t.state != WhitespaceState && t.state != InitialState
  {
    Exclude(LexerFmt.Lex(text), {WhitespaceState, InitialState})
  }

  /** `parse_docs` on a token sequence: the state after the whole loop.
      The flat class list holds one record per `class` keyword, in source
      order, each read by `_detect_class` at its keyword, and every method
      a class lists is the record of a method head after that keyword
      (what such a record holds is stated by `MethodEventDetected`). */
  function Parse(ts: seq<Token>): (r: Result<Docs, Abort>)
    ensures r.Ok? ==> WellFormed(r.value)
    ensures r.Ok? ==> var cs := r.value.classes; var ps := ClassPositions(Events(ts), |ts|);
      && |cs| == |ps|
      && forall k :: 0 <= k < |ps| ==> IsClassAt(ts, ps[k]) && cs[k].head == DetectClass(ts, ps[k])
    ensures r.Ok? ==> var cs := r.value.classes; var ps := ClassPositions(Events(ts), |ts|);
      forall k, j :: 0 <= k < |cs| && 0 <= j < |cs[k].methods| ==> MetAfter(Events(ts), ps[k], |ts|, cs[k].methods[j])
  {
    var r := Fold(Events(ts), |ts|);
    if r.Ok? then FoldCollectsClasses(Events(ts), |ts|); FoldMethodsMet(Events(ts), |ts|); r else r
  }

  /** At a method head that is not a class head the event is a method
      event carrying the record `DetectMethod` reads there; no other token
      gives a method event (`Classify`). */
  lemma MethodEventDetected(ts: seq<Token>, i: nat)
    requires i < |ts| && !IsClassAt(ts, i) && IsMethodAt(ts, i)
    ensures Events(ts)[i] == MethodHeadAt(DetectMethod(ts, i))
  {
    assert Events(ts)[i] == Classify(ts, i);
  }

  /** `parse_docs` as written: the loop over the events whose method
      records `_detect_method` reads without the extra step. Every method a
      class lists is the record of a method head after the class's keyword
      (what such a record holds is stated by `AsWrittenEventDetected`); the
      classes themselves are those of `Parse` (`ParsesAgree`). */
  function ParseAsWritten(ts: seq<Token>): (r: Result<Docs, Abort>)
    ensures r.Ok? ==> WellFormed(r.value)
    ensures r.Ok? ==> var cs := r.value.classes; var ps := ClassPositions(EventsAsWritten(ts), |ts|);
      && |cs| == |ps|
      && forall k, j :: 0 <= k < |cs| && 0 <= j < |cs[k].methods| ==> MetAfter(EventsAsWritten(ts), ps[k], |ts|, cs[k].methods[j])
  {
    var r := Fold(EventsAsWritten(ts), |ts|);
    if r.Ok? then FoldMethodsMet(EventsAsWritten(ts), |ts|); r else r
  }

  /** At a method head that is not a class head the loop as written sees a
      method event carrying the record `_detect_method` as written reads
      there; no other token gives one (`ClassifyAgrees`). */
  lemma AsWrittenEventDetected(ts: seq<Token>, i: nat)
    requires i < |ts| && !IsClassAt(ts, i) && IsMethodAt(ts, i)
    ensures EventsAsWritten(ts)[i] == MethodHeadAt(DetectMethodAsWritten(ts, i))
  {
    assert EventsAsWritten(ts)[i] == ClassifyAsWritten(ts, i);
  }

  /** The parse as written and the corrected parse differ only in method
      records: they stop at the same head for the same reason, or both
      succeed with the same classes, nesting and method counts; and with
      every method head carrying an access modifier they are equal. */
  lemma ParsesAgree(ts: seq<Token>)
    ensures ParseAsWritten(ts).Ok? <==> Parse(ts).Ok?
    ensures Parse(ts).Err? ==> ParseAsWritten(ts) == Parse(ts)
    ensures Parse(ts).Ok? ==> SameShape(Parse(ts).value, ParseAsWritten(ts).value)
    ensures (forall i :: 0 <= i < |ts| && IsMethodAt(ts, i) ==>
               PrefixBefore(Wrap(ts), i + |ts|).access < PrefixBefore(Wrap(ts), i + |ts|).modifiers)
      ==> ParseAsWritten(ts) == Parse(ts)
  {
    var es, fs := Events(ts), EventsAsWritten(ts);
    forall i | 0 <= i < |ts|
      ensures SameKind(es[i], fs[i])
    {
      ClassifyAgrees(ts, i);
    }
    FoldShapes(es, fs, |ts|);
    if forall i :: 0 <= i < |ts| && IsMethodAt(ts, i) ==>
         PrefixBefore(Wrap(ts), i + |ts|).access < PrefixBefore(Wrap(ts), i + |ts|).modifiers
    {
      EventsEqualWithAccess(ts);
    }
  }

  /** With an access modifier before every method head, the loop as written
      sees exactly the events of the corrected loop. */
  lemma EventsEqualWithAccess(ts: seq<Token>)
    requires forall i :: 0 <= i < |ts| && IsMethodAt(ts, i) ==>
      PrefixBefore(Wrap(ts), i + |ts|).access < PrefixBefore(Wrap(ts), i + |ts|).modifiers
    ensures EventsAsWritten(ts) == Events(ts)
  {
    var es, fs := Events(ts), EventsAsWritten(ts);
    forall i | 0 <= i < |ts|
      ensures fs[i] == es[i]
    {
      ClassifyAgrees(ts, i);
    }
  }

  /** The events up to a method head with no class head before it. */
  lemma EventsBeforeClass(ts: seq<Token>, i: nat)
    requires i < |ts| && IsMethodAt(ts, i) && forall j :: 0 <= j <= i ==> !IsClassAt(ts, j)
    ensures Events(ts)[i].MethodHeadAt?
    ensures forall j :: 0 <= j <= i ==> !Events(ts)[j].ClassHeadAt?
  {
  }

  /** A method head before any class head stops `parse_docs` with its
      error, at that method head or an earlier one. */
  lemma MethodBeforeClassAborts(ts: seq<Token>, i: nat)
    requires i < |ts| && IsMethodAt(ts, i) && forall j :: 0 <= j <= i ==> !IsClassAt(ts, j)
    ensures Parse(ts).Err? && Parse(ts).error.MethodOutsideClass? && Parse(ts).error.at <= i
  {
    EventsBeforeClass(ts, i);
    NothingOpenBeforeClass(Events(ts), i + 1);
    AbortSticks(Events(ts), i + 1, |ts|);
  }

  /** Every token of a class head comes from the sequence it was read from. */
  lemma HeadFromTokens(ts: seq<Token>, c: nat)
    requires IsClassAt(ts, c)
    ensures forall t :: t in DetectClass(ts, c).after ==> t in ts
    ensures forall t :: t in DetectClass(ts, c).before ==> t in ts
  {
    var h := DetectClass(ts, c);
    var p := PrefixBefore(Wrap(ts), c + |ts|);
    assert h.before == Wrap(ts)[p.docs..c + |ts|] && h.after == UpToBrace(ts, c + 1);
    WrapSliceIn(ts, p.docs, c + |ts|);
    UpToBraceIn(ts, c + 1);
  }

  /** Every token the forward scan collects is a token of the sequence. */
  lemma UpToBraceIn(ts: seq<Token>, i: nat)
    requires i <= |ts|
    ensures forall t :: t in UpToBrace(ts, i) ==> t in ts
  {
    var a := UpToBrace(ts, i);
    forall t | t in a
      ensures t in ts
    {
      var q :| 0 <= q < |a| && a[q] == t;
      assert t == ts[i + q];
    }
  }

  /** Every token of a slice of the doubled partition is a token of the
      partition. */
  lemma WrapSliceIn(ts: seq<Token>, lo: int, hi: int)
    requires 0 <= lo <= hi <= 2 * |ts|
    ensures forall t :: t in Wrap(ts)[lo..hi] ==> t in ts
  {
    var w := Wrap(ts);
    forall t | t in w[lo..hi]
      ensures t in ts
    {
      var q :| lo <= q < hi && w[q] == t;
      assert t == ts[if q < |ts| then q else q - |ts|];
    }
  }

  /** `parse_docs`: the flat list of class records, or the reason it stops.
      No whitespace or initial-state token reaches a class record. */
  function ParseDocs(text: string): (r: Result<seq<ClassDoc>, Abort>)
    ensures r.Ok? ==> |r.value| == |ClassPositions(Events(Scanned(text)), |Scanned(text)|)|
    ensures r.Ok? ==> forall k, t :: 0 <= k < |r.value| && t in r.value[k].head.after ==>
      t.state != WhitespaceState && t.state != InitialState
    ensures r.Ok? ==> forall k, t :: 0 <= k < |r.value| && t in r.value[k].head.before ==>
      t.state != WhitespaceState && t.state != InitialState
    ensures r.Ok? ==> var ts := Scanned(text); var ps := ClassPositions(Events(ts), |ts|);
      forall k, j :: 0 <= k < |r.value| && 0 <= j < |r.value[k].methods| ==>
        MetAfter(Events(ts), ps[k], |ts|, r.value[k].methods[j])
  {
    var ts := Scanned(text);
    match Parse(ts)
    case Err(e) => Err(e)
    case Ok(d) =>
      HeadsFromScanned(ts, ClassPositions(Events(ts), |ts|));
      Ok(d.classes)
  }

  /** The heads at the given `class` keywords hold only tokens of `ts`. */
  lemma HeadsFromScanned(ts: seq<Token>, ps: seq<nat>)
    requires forall k :: 0 <= k < |ps| ==> IsClassAt(ts, ps[k])
    ensures forall k, t :: 0 <= k < |ps| && t in DetectClass(ts, ps[k]).after ==> t in ts
    ensures forall k, t :: 0 <= k < |ps| && t in DetectClass(ts, ps[k]).before ==> t in ts
  {
    forall k | 0 <= k < |ps| {
      HeadFromTokens(ts, ps[k]);
    }
  }

  // ---------------------------------------------------------------------
  // Findings
  // ---------------------------------------------------------------------

  /** `@A @B void f() {`. */
  const AnnotatedMethod := [Token(AnnotationState, "@A"), Token(AnnotationState, "@B"), Token(NameState, "void"),
                            Token(NameState, "f"), Token(ArgumentsParenthesisState, "()"), Token(OpenBracketState, "{")]

  /** `/** d */ static void f() {`. */
  const DocumentedMethod := [Token(JavadocState, "/** d */"), Token(ModifierState, "static"), Token(NameState, "void"),
                             Token(NameState, "f"), Token(ArgumentsParenthesisState, "()"), Token(OpenBracketState, "{")]

  /** `@A @B void f() {`: the method as written loses its last annotation,
      since the annotation scan starts at `@A`. */
  lemma AnnotationLost()
    ensures IsMethodAt(AnnotatedMethod, 2)
    ensures DetectMethodAsWritten(AnnotatedMethod, 2).annotations == ["@A"]
    ensures DetectMethod(AnnotatedMethod, 2).annotations == ["@A", "@B"]
  {
    AnnotatedAsWritten(AnnotatedMethod);
    AnnotatedFixed(AnnotatedMethod);
  }

  /** The as-written half of `AnnotationLost`. */
  lemma AnnotatedAsWritten(ts: seq<Token>)
    requires ts == AnnotatedMethod
    ensures IsMethodAt(ts, 2) && DetectMethodAsWritten(ts, 2).annotations == ["@A"]
  {
    var w := Wrap(ts);
    assert RunStart(w, 7, ModifierState) == 8;
    assert RunStart(w, 6, AnnotationState) == 6;
  }

  /** The corrected half of `AnnotationLost`. */
  lemma AnnotatedFixed(ts: seq<Token>)
    requires ts == AnnotatedMethod
    ensures IsMethodAt(ts, 2) && DetectMethod(ts, 2).annotations == ["@A", "@B"]
  {
    var w := Wrap(ts);
    assert RunStart(w, 7, ModifierState) == 8;
    assert RunStart(w, 7, AnnotationState) == 6;
    assert PrefixBefore(w, 8) == Starts(6, 6, 8, 8);
  }

  /** `/** d */ static void f() {`: the method as written loses its
      Javadoc comment, since the check looks at the token before it. */
  lemma DocsLost()
    ensures IsMethodAt(DocumentedMethod, 2)
    ensures DetectMethodAsWritten(DocumentedMethod, 2).docs == None
    ensures DetectMethod(DocumentedMethod, 2).docs == Some("/** d */")
  {
    DocumentedAsWritten(DocumentedMethod);
    DocumentedFixed(DocumentedMethod);
  }

  /** The as-written half of `DocsLost`. */
  lemma DocumentedAsWritten(ts: seq<Token>)
    requires ts == DocumentedMethod
    ensures IsMethodAt(ts, 2) && DetectMethodAsWritten(ts, 2).docs == None
  {
    var w := Wrap(ts);
    assert RunStart(w, 7, ModifierState) == 7;
    assert RunStart(w, 5, AnnotationState) == 6;
  }

  /** The corrected half of `DocsLost`. */
  lemma DocumentedFixed(ts: seq<Token>)
    requires ts == DocumentedMethod
    ensures IsMethodAt(ts, 2) && DetectMethod(ts, 2).docs == Some("/** d */")
  {
    var w := Wrap(ts);
    assert RunStart(w, 7, ModifierState) == 7;
    assert RunStart(w, 6, AnnotationState) == 7;
    assert PrefixBefore(w, 8) == Starts(6, 7, 7, 7);
  }
}
