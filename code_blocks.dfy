/**
 * `extract_code_blocks` of the chat front end: splits a reply into
 * alternating text and code parts.
 *
 * The reply is split with `re.split` on the fence pattern
 * "```(?:\w+)?\n(.*?)```" (`.` matching line breaks). A fence is three
 * backticks, an optional language word and a line break; the code runs to
 * the nearest following three backticks. With one capture group, the split
 * yields the text before the first fence, its code, the text between the
 * first and second fence, and so on, ending with the text after the last
 * fence. Each part is then stripped and labelled, the labels alternating.
 */
module CodeBlocks {
  import opened Text

  /** Three backticks. */
  const Fence := "```"

  /** A fenced block at `i`: where its code starts and ends, and where the match ends. */
  datatype Block = Block(codeStart: nat, codeEnd: nat, end: nat)

  /**
   * The fence pattern at `i`. The greedy `\w+` is followed by a line break,
   * which it cannot match itself, so the language word is all word
   * characters up to the line break, and the lazy `.*?` stops at the nearest
   * closing fence.
   */
  function BlockAt(s: string, i: nat): (r: Option<Block>)
    requires i <= |s|
    ensures r.Some? ==> MatchesCI(s, i, Fence) && i + 4 <= r.value.codeStart <= r.value.codeEnd
    ensures r.Some? ==> r.value.end == r.value.codeEnd + 3 <= |s| && s[r.value.codeStart - 1] == '\n'
    ensures r.Some? ==> forall k :: i + 3 <= k < r.value.codeStart - 1 ==> IsWord(s[k])
    ensures r.Some? ==> MatchesCI(s, r.value.codeEnd, Fence) && NoMatchIn(s, r.value.codeStart, r.value.codeEnd, Fence)
  {
    if !MatchesCI(s, i, Fence) then None
    else
      var w := SkipWord(s, i + 3);
      if w == |s| || s[w] != '\n' then None
      else
        match FindCI(s, w + 1, Fence)
        case None => None
        case Some(e) => Some(Block(w + 1, e, e + 3))
  }

  /**
   * `re.split` from `p`, where the current text part began at `prev`: the
   * text parts and the captured code, interleaved.
   */
  function RawParts(s: string, p: nat, prev: nat): (r: seq<string>)
    requires prev <= p <= |s|
    ensures |r| % 2 == 1
    decreases |s| - p
  {
    if p == |s| then [s[prev..]]
    else
      match BlockAt(s, p)
      case None => RawParts(s, p + 1, prev)
      case Some(b) => [s[prev .. p], s[b.codeStart .. b.codeEnd]] + RawParts(s, b.end, b.end)
  }

  /** `re.findall` of the pattern from `p`: the code of every fenced block, in order. */
  function Codes(s: string, p: nat): (r: seq<string>)
    requires p <= |s|
    ensures forall j :: 0 <= j < |r| ==> NoMatchIn(r[j], 0, |r[j]|, Fence)
    decreases |s| - p
  {
    if p == |s| then []
    else
      match BlockAt(s, p)
      case None => Codes(s, p + 1)
      case Some(b) =>
        NoMatchSlice(s, b.codeStart, b.codeEnd, 0, b.codeEnd - b.codeStart, Fence);
        [s[b.codeStart .. b.codeEnd]] + Codes(s, b.end)
  }

  /**
   * Splitting with one group interleaves the text with what `findall`
   * captures: `2k + 1` parts for `k` blocks, the code at the odd positions.
   */
  lemma {:induction false} SplitInterleavesCodes(s: string, p: nat, prev: nat)
    requires prev <= p <= |s|
    ensures Interleaves(RawParts(s, p, prev), Codes(s, p))
    decreases |s| - p
  {
    if p < |s| {
      match BlockAt(s, p)
      case None =>
        SplitInterleavesCodes(s, p + 1, prev);
      case Some(b) =>
        SplitInterleavesCodes(s, b.end, b.end);
        InterleavesCons(s[prev .. p], s[b.codeStart .. b.codeEnd], RawParts(s, b.end, b.end), Codes(s, b.end));
    }
  }

  /** `raw` has `2k + 1` parts for the `k` codes, with the codes at the odd positions. */
  predicate Interleaves(raw: seq<string>, codes: seq<string>) {
    |raw| == 2 * |codes| + 1 && forall j :: 0 <= j < |codes| ==> raw[2 * j + 1] == codes[j]
  }

  /** One more text part and one more code in front keep the interleaving. */
  lemma InterleavesCons(t: string, c: string, raw: seq<string>, codes: seq<string>)
    requires Interleaves(raw, codes)
    ensures Interleaves([t, c] + raw, [c] + codes)
  {
    var r, cs := [t, c] + raw, [c] + codes;
    forall j | 1 <= j < |cs| ensures r[2 * j + 1] == cs[j] {
      assert r[2 * j + 1] == raw[2 * (j - 1) + 1];
    }
  }

  /** The whole text of every match from `p`, fences included, in order. */
  function MatchTexts(s: string, p: nat): (r: seq<string>)
    requires p <= |s|
    ensures |r| == |Codes(s, p)|
    ensures forall j :: 0 <= j < |r| ==> FencedText(r[j])
    decreases |s| - p
  {
    if p == |s| then []
    else
      match BlockAt(s, p)
      case None => MatchTexts(s, p + 1)
      case Some(b) =>
        MatchIsFenced(s, p, b);
        [s[p .. b.end]] + MatchTexts(s, b.end)
  }

  /** Opens and closes with three backticks, with at least a line break between them. */
  predicate FencedText(m: string) {
    |m| >= 7 && MatchesCI(m, 0, Fence) && MatchesCI(m, |m| - 3, Fence)
  }

  lemma MatchIsFenced(s: string, p: nat, b: Block)
    requires p <= |s| && BlockAt(s, p) == Some(b)
    ensures p <= b.end <= |s| && FencedText(s[p .. b.end])
  {
    MatchesCISlice(s, p, b.end, p, Fence);
    MatchesCISlice(s, p, b.end, b.codeEnd, Fence);
  }

  /** The text parts of a split put back together with the matches between them. */
  function Rejoin(raw: seq<string>, matches: seq<string>): (r: string)
    requires |raw| == 2 * |matches| + 1
    decreases |matches|
  {
    if matches == [] then raw[0]
    else raw[0] + matches[0] + Rejoin(raw[2..], matches[1..])
  }

  lemma RejoinCons(t: string, c: string, m: string, raw: seq<string>, matches: seq<string>)
    requires |raw| == 2 * |matches| + 1
    ensures Rejoin([t, c] + raw, [m] + matches) == t + m + Rejoin(raw, matches)
  {
    assert ([t, c] + raw)[2..] == raw;
    assert ([m] + matches)[1..] == matches;
  }

  /**
   * Nothing of the reply is lost or moved by the split: its text parts, with
   * the matched blocks put back between them, give the reply again.
   */
  lemma {:induction false} SplitRejoins(s: string, p: nat, prev: nat)
    requires prev <= p <= |s|
    ensures |RawParts(s, p, prev)| == 2 * |MatchTexts(s, p)| + 1
    ensures Rejoin(RawParts(s, p, prev), MatchTexts(s, p)) == s[prev..]
    decreases |s| - p
  {
    SplitInterleavesCodes(s, p, prev);
    if p < |s| {
      match BlockAt(s, p)
      case None =>
        SplitRejoins(s, p + 1, prev);
      case Some(b) =>
        SplitRejoins(s, b.end, b.end);
        var rest := RawParts(s, b.end, b.end);
        var ms := MatchTexts(s, b.end);
        RejoinCons(s[prev .. p], s[b.codeStart .. b.codeEnd], s[p .. b.end], rest, ms);
        SliceThree(s, prev, p, b.end);
    }
  }

  lemma SliceThree(s: string, a: nat, b: nat, c: nat)
    requires a <= b <= c <= |s|
    ensures s[a..] == s[a .. b] + s[b .. c] + s[c..]
  {
  }

  datatype Kind = TextPart | CodePart

  /** One entry of the result: `{"type": ..., "content": ...}`. */
  datatype Part = Part(kind: Kind, content: string)

  /** The label of part `i` when the first part is labelled code iff `firstIsCode`. */
  function KindAt(i: nat, firstIsCode: bool): (k: Kind)
    ensures (k == CodePart) == ((i % 2 == 0) == firstIsCode)
  {
    if (i % 2 == 0) == firstIsCode then CodePart else TextPart
  }

  /** The labelling loop: strips each part and labels it, flipping the label after every part. */
  method LabelParts(raw: seq<string>, firstIsCode: bool) returns (parts: seq<Part>)
    ensures |parts| == |raw|
    ensures forall i :: 0 <= i < |raw| ==> parts[i] == Part(KindAt(i, firstIsCode), Strip(raw[i]))
  {
    parts := [];
    var isCode := firstIsCode;
    for i := 0 to |raw|
      invariant |parts| == i
      invariant isCode == ((i % 2 == 0) == firstIsCode)
      invariant forall j :: 0 <= j < i ==> parts[j] == Part(KindAt(j, firstIsCode), Strip(raw[j]))
    {
      var kind := if isCode then CodePart else TextPart;
      parts := parts + [Part(kind, Strip(raw[i]))];
      isCode := !isCode;
    }
  }

  /** The labelled parts of `raw`, the first labelled code iff `firstIsCode`. */
  function Labelled(raw: seq<string>, firstIsCode: bool): (r: seq<Part>)
    ensures |r| == |raw|
    ensures forall i :: 0 <= i < |raw| ==> r[i] == Part(KindAt(i, firstIsCode), Strip(raw[i]))
  {
    seq(|raw|, i requires 0 <= i < |raw| => Part(KindAt(i, firstIsCode), Strip(raw[i])))
  }

  /** The function as written: the first part is labelled code iff the reply starts with a fence. */
  method ExtractCodeBlocksAsWritten(text: string) returns (parts: seq<Part>)
    ensures parts == Labelled(RawParts(text, 0, 0), StartsWith(text, Fence))
  {
    parts := LabelParts(RawParts(text, 0, 0), StartsWith(text, Fence));
  }

  /**
   * The function as intended: the split always begins with the text before
   * the first fence (empty when the reply starts with one), so the first
   * part is always text.
   */
  method ExtractCodeBlocks(text: string) returns (parts: seq<Part>)
    ensures parts == Labelled(RawParts(text, 0, 0), false)
  {
    parts := LabelParts(RawParts(text, 0, 0), false);
  }

  /**
   * With the corrected labelling, the parts labelled code are exactly the
   * stripped code of the fenced blocks, in order, and every other part is text.
   */
  lemma CodeIsLabelledCode(text: string)
    ensures var parts := Labelled(RawParts(text, 0, 0), false); var codes := Codes(text, 0);
      |parts| == 2 * |codes| + 1
      && (forall j :: 0 <= j < |codes| ==> parts[2 * j + 1] == Part(CodePart, Strip(codes[j])))
      && (forall j :: 0 <= j <= |codes| ==> parts[2 * j].kind == TextPart)
  {
    SplitInterleavesCodes(text, 0, 0);
    var raw := RawParts(text, 0, 0);
    var parts := Labelled(raw, false);
    var codes := Codes(text, 0);
    forall j | 0 <= j < |codes| ensures parts[2 * j + 1] == Part(CodePart, Strip(codes[j])) {
      KindAtParity(j, false);
    }
    forall j | 0 <= j <= |codes| ensures parts[2 * j].kind == TextPart {
      KindAtParity(j, false);
    }
  }

  /** The labels of the even and odd positions. */
  lemma KindAtParity(j: nat, firstIsCode: bool)
    ensures KindAt(2 * j, firstIsCode) == (if firstIsCode then CodePart else TextPart)
    ensures KindAt(2 * j + 1, firstIsCode) == (if firstIsCode then TextPart else CodePart)
  {
    assert (2 * j) % 2 == 0 && (2 * j + 1) % 2 == 1;
  }

  /** A reply that starts with a fenced block has an empty first part. */
  lemma LeadingBlockGivesEmptyText(text: string)
    requires |text| > 0 && BlockAt(text, 0).Some?
    ensures StartsWith(text, Fence)
    ensures RawParts(text, 0, 0)[0] == []
  {
    var f := Fence;
    assert text[..3] == f by {
      forall k | 0 <= k < 3 ensures text[k] == f[k] {
        assert Lower(text[k]) == f[k];
      }
    }
  }

  /**
   * As written, a reply that starts with a fenced block gets every label
   * inverted: the empty text before the fence is labelled code, and the
   * code of every block is labelled text.
   */
  lemma AsWrittenLabelsCodeAsText(text: string)
    requires |text| > 0 && BlockAt(text, 0).Some?
    ensures var parts := Labelled(RawParts(text, 0, 0), StartsWith(text, Fence)); var codes := Codes(text, 0);
      |codes| >= 1 && |parts| == 2 * |codes| + 1 && parts[0] == Part(CodePart, [])
      && forall j :: 0 <= j < |codes| ==> parts[2 * j + 1] == Part(TextPart, Strip(codes[j]))
  {
    LeadingBlockGivesEmptyText(text);
    SplitInterleavesCodes(text, 0, 0);
    assert Strip([]) == [];
  }

  // ---------------------------------------------------------------------
  // Worked example: the lemmas from here on only evaluate the single-block reply

  /** The smallest reply showing the inverted labels: a single block holding `x`. */
  lemma SingleBlockExample()
    ensures var text := "```\nx```";
      && Labelled(RawParts(text, 0, 0), StartsWith(text, Fence)) == [Part(CodePart, ""), Part(TextPart, "x"), Part(CodePart, "")]
      && Labelled(RawParts(text, 0, 0), false) == [Part(TextPart, ""), Part(CodePart, "x"), Part(TextPart, "")]
  {
    SingleBlockSplit();
    SingleBlockStartsWithFence();
    StripX();
    LabelledThree("", "x", "", true);
    LabelledThree("", "x", "", false);
  }

  lemma SingleBlockStartsWithFence()
    ensures StartsWith("```\nx```", Fence)
  {
    var text := "```\nx```";
    assert text[..3] == Fence;
  }

  lemma StripX()
    ensures Strip("x") == "x" && Strip("") == ""
  {
    assert SkipSpace("x", 0) == 0;
    assert TrimEnd("x", 0) == 1;
    assert "x"[0..1] == "x";
  }

  /** Labelling three parts. */
  lemma LabelledThree(a: string, b: string, c: string, firstIsCode: bool)
    ensures Labelled([a, b, c], firstIsCode)
      == [Part(KindAt(0, firstIsCode), Strip(a)), Part(KindAt(1, firstIsCode), Strip(b)), Part(KindAt(2, firstIsCode), Strip(c))]
  {
  }

  /** The split of the single-block reply: empty text, the code `x`, empty text. */
  lemma SingleBlockSplit()
    ensures RawParts("```\nx```", 0, 0) == ["", "x", ""]
  {
    var text := "```\nx```";
    assert |text| == 8;
    assert SkipWord(text, 3) == 3;
    assert MatchesCI(text, 5, Fence);
    assert FindCI(text, 4, Fence) == Some(5) by {
      assert !MatchesCI(text, 4, Fence) by { assert Lower(text[4]) != Fence[0]; }
    }
    assert BlockAt(text, 0) == Some(Block(4, 5, 8));
    assert RawParts(text, 8, 8) == [text[8..]];
    assert text[0..0] == "" && text[4..5] == "x" && text[8..] == "";
  }
}
