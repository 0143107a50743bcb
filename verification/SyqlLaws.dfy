/** What the SyQL rewriting promises about its source map, and what directives do to a query. */
module SyqlLaws {
  import opened SourceMapping
  import opened SpanLaws
  import opened Syql
  import opened Text
  import opened Utf8
  import opened Wrappers

  /** `text` stands in `source` from character `k`, at byte `offset`. */
  predicate StandsAt(source: string, k: nat, offset: nat, text: string) {
    k + |text| <= |source| && source[k..k + |text|] == text && ByteAt(source, k) == offset
  }

  ghost predicate At(source: string, offset: nat, text: string) {
    exists k: nat :: StandsAt(source, k, offset, text)
  }

  lemma {:induction false} BytesOfSlice(source: string, k: nat, text: string, n: nat)
    requires k + |text| <= |source| && source[k..k + |text|] == text && n <= |text|
    ensures ByteAt(source, k + n) == ByteAt(source, k) + ByteAt(text, n)
  {
    if n > 0 {
      BytesOfSlice(source, k, text, n - 1);
      assert source[k..k + |text|][n - 1] == text[n - 1];
    }
  }

  lemma AtSplits(source: string, offset: nat, a: string, b: string)
    requires At(source, offset, a + b)
    ensures ByteLen(a + b) == ByteLen(a) + ByteLen(b)
    ensures At(source, offset, a) && At(source, offset + ByteLen(a), b)
  {
    var k: nat :| StandsAt(source, k, offset, a + b);
    ByteLenConcat(a, b);
    Slices(source, k, a, b);
    BytesOfSlice(source, k, a, |a|);
    assert StandsAt(source, k, offset, a);
    assert StandsAt(source, k + |a|, offset + ByteLen(a), b);
  }

  lemma Slices<T>(s: seq<T>, k: nat, a: seq<T>, b: seq<T>)
    requires k + |a + b| <= |s| && s[k..k + |a + b|] == a + b
    ensures s[k..k + |a|] == a
    ensures s[k + |a|..k + |a| + |b|] == b
  {
    var slice := s[k..k + |a + b|];
    assert slice[..|a|] == a && slice[|a|..] == b;
  }

  lemma AtEndsInside(source: string, offset: nat, text: string)
    requires At(source, offset, text)
    ensures offset + ByteLen(text) <= ByteLen(source)
  {
    var k: nat :| StandsAt(source, k, offset, text);
    BytesOfSlice(source, k, text, |text|);
    BytesBetween(source, k + |text|, |source|);
  }

  /** The encoded source has the encoded text there. */
  lemma AtInBytes(source: string, offset: nat, text: string)
    requires At(source, offset, text)
    ensures ByteLen(text) == |Encode(text)| && offset + |Encode(text)| <= |Encode(source)|
    ensures Encode(source)[offset..offset + |Encode(text)|] == Encode(text)
  {
    hide Encode;
    var k: nat :| StandsAt(source, k, offset, text);
    var front, back := source[..k], source[k + |text|..];
    assert source == front + (text + back);
    EncodeConcat(front, text + back);
    EncodeConcat(text, back);
    ByteAtIsEncodedLength(source, k);
    ByteAtIsEncodedLength(text, |text|);
    assert text[..|text|] == text;
    Middle(Encode(front), Encode(text), Encode(back));
  }

  lemma Middle<T>(a: seq<T>, b: seq<T>, c: seq<T>)
    ensures (a + (b + c))[|a|..|a| + |b|] == b
  {
  }

  // ---------- fragments are places in the input ----------

  ghost predicate InPlace(f: Fragment, source: string) {
    |f.text| > 0 && f.origin.len == ByteLen(f.text) && At(source, f.origin.offset, f.text)
  }

  /** Every fragment is where its origin says, and they come in order, apart from each other and before `limit`. */
  ghost predicate Placed(fragments: seq<Fragment>, source: string, limit: nat) {
    (forall i :: 0 <= i < |fragments| ==> InPlace(fragments[i], source) && fragments[i].origin.End() <= limit) &&
    forall i, j :: 0 <= i < j < |fragments| ==> fragments[i].origin.End() <= fragments[j].origin.offset
  }

  lemma PlacedLater(fragments: seq<Fragment>, source: string, limit: nat, later: nat)
    requires Placed(fragments, source, limit) && limit <= later
    ensures Placed(fragments, source, later)
  {
  }

  lemma PlacedOneMore(fragments: seq<Fragment>, f: Fragment, source: string, limit: nat)
    requires Placed(fragments, source, limit) && InPlace(f, source) && limit <= f.origin.offset
    ensures Placed(fragments + [f], source, f.origin.End())
  {
  }

  lemma TrimParts(line: string) returns (lead: string, tail: string)
    ensures line == lead + (Trim(line) + tail)
    ensures LeadingBytes(line) == ByteLen(lead)
  {
    hide TrimStart, TrimEnd, ByteAt;
    var kept := TrimStart(line);
    lead := line[..|line| - |kept|];
    tail := kept[|TrimEnd(kept)|..];
    assert kept == TrimEnd(kept) + tail;
    assert line == lead + kept;
    Splits(line, |line| - |kept|);
  }

  lemma TrimmedPlace(source: string, line: string, offset: nat)
    requires At(source, offset, line)
    ensures At(source, offset + LeadingBytes(line), Trim(line))
    ensures LeadingBytes(line) + ByteLen(Trim(line)) <= ByteLen(line)
  {
    hide At, LeadingBytes, Trim, ByteAt;
    var lead, tail := TrimParts(line);
    AtSplits(source, offset, lead, Trim(line) + tail);
    AtSplits(source, offset + ByteLen(lead), Trim(line), tail);
  }

  lemma QueryLine(line: string)
    requires Classify(line).Query?
    ensures Classify(line).text == Trim(line) && |Trim(line)| > 0
  {
  }

  lemma LineStaysPlaced(c: Collected, line: string, offset: nat, source: string)
    requires Placed(c.fragments, source, offset) && At(source, offset, line)
    ensures Placed(AddLine(c, line, offset).fragments, source, offset + ByteLen(line))
  {
    hide At, Classify, LeadingBytes, Trim, ByteAt, Placed;
    TrimmedPlace(source, line, offset);
    PlacedLater(c.fragments, source, offset, offset + ByteLen(line));
    if Classify(line).Query? {
      QueryLine(line);
      var f := Fragment(Trim(line), Span(offset + LeadingBytes(line), ByteLen(Trim(line))));
      PlacedLater(c.fragments, source, offset, f.origin.offset);
      PlacedOneMore(c.fragments, f, source, f.origin.offset);
      PlacedLater(c.fragments + [f], source, f.origin.End(), offset + ByteLen(line));
    }
  }

  lemma Around<T>(s: seq<T>, k: nat)
    requires k < |s|
    ensures s == s[..k] + ([s[k]] + s[k + 1..])
  {
  }

  lemma FirstLine(s: string) returns (line: string, after: Option<string>)
    ensures after.None? ==> Lines(s) == [s] && line == s
    ensures after.Some? ==>
              Lines(s) == [line] + Lines(after.value) && s == line + (['\n'] + after.value) && |after.value| < |s|
  {
    hide LineEnd;
    var end := LineEnd(s, 0);
    if end == |s| {
      line, after := s, None;
    } else {
      line, after := s[..end], Some(s[end + 1..]);
      Around(s, end);
    }
  }

  lemma {:induction false} LinesStayPlaced(c: Collected, rest: string, offset: nat, source: string)
    requires Placed(c.fragments, source, offset) && At(source, offset, rest)
    ensures Placed(AddLines(c, Lines(rest), offset).fragments, source, ByteLen(source))
    decreases |rest|
  {
    hide At, AddLine, AddLines, Lines, ByteAt, Placed;
    AtEndsInside(source, offset, rest);
    var line, rest' := FirstLine(rest);
    match rest'
    case None =>
      LineStaysPlaced(c, rest, offset, source);
      PlacedLater(AddLine(c, rest, offset).fragments, source, offset + ByteLen(rest), ByteLen(source));
      OneLine(c, rest, offset);
    case Some(after) =>
      AtSplits(source, offset, line, ['\n'] + after);
      AtSplits(source, offset + ByteLen(line), ['\n'], after);
      NewlineIsOneByte();
      LineStaysPlaced(c, line, offset, source);
      var next := AddLine(c, line, offset);
      PlacedLater(next.fragments, source, offset + ByteLen(line), offset + ByteLen(line) + 1);
      LinesStayPlaced(next, after, offset + ByteLen(line) + 1, source);
      MoreLines(c, line, Lines(after), offset);
  }

  lemma OneLine(c: Collected, line: string, offset: nat)
    ensures AddLines(c, [line], offset) == AddLine(c, line, offset)
  {
    MoreLines(c, line, [], offset);
    assert [line] + [] == [line];
  }

  lemma MoreLines(c: Collected, line: string, lines: seq<string>, offset: nat)
    ensures AddLines(c, [line] + lines, offset) == AddLines(AddLine(c, line, offset), lines, offset + ByteLen(line) + 1)
  {
    assert ([line] + lines)[1..] == lines;
  }

  lemma NewlineIsOneByte()
    ensures ByteLen(['\n']) == 1
  {
    assert ['\n'][1..] == [];
  }

  // ---------- trailing directives only shorten the last fragment ----------

  lemma ShorterStaysInPlace(f: Fragment, prefix: string, source: string)
    requires InPlace(f, source) && prefix <= f.text && prefix != ""
    ensures InPlace(WithoutTail(f, prefix), source)
    ensures WithoutTail(f, prefix).origin.End() <= f.origin.End()
  {
    assert f.text == prefix + f.text[|prefix|..];
    AtSplits(source, f.origin.offset, prefix, f.text[|prefix|..]);
  }

  lemma PlacedWithoutLast(fragments: seq<Fragment>, source: string, limit: nat)
    requires |fragments| > 0 && Placed(fragments, source, limit)
    ensures Placed(fragments[..|fragments| - 1], source, fragments[|fragments| - 1].origin.offset)
    ensures InPlace(fragments[|fragments| - 1], source)
    ensures fragments[|fragments| - 1].origin.offset <= fragments[|fragments| - 1].origin.End() <= limit
  {
  }

  lemma {:induction false} StrippingStaysPlaced(c: Collected, source: string, limit: nat)
    requires Placed(c.fragments, source, limit)
    ensures Placed(StripAll(c).fragments, source, limit)
    decreases |c.fragments|, LastLength(c.fragments)
  {
    hide StripTrailingDirective, Placed, InPlace;
    if |c.fragments| > 0 {
      var last := c.fragments[|c.fragments| - 1];
      match StripTrailingDirective(last.text)
      case None =>
      case Some(s) =>
        var earlier := c.fragments[..|c.fragments| - 1];
        var metadata := c.metadata[s.key := Lower(s.value)];
        PlacedWithoutLast(c.fragments, source, limit);
        if s.prefix == "" {
          PlacedLater(earlier, source, last.origin.offset, limit);
          StrippingStaysPlaced(Collected(earlier, metadata), source, limit);
        } else {
          var f := WithoutTail(last, s.prefix);
          ShorterStaysInPlace(last, s.prefix, source);
          PlacedOneMore(earlier, f, source, last.origin.offset);
          PlacedLater(earlier + [f], source, f.origin.End(), limit);
          StrippingStaysPlaced(Collected(earlier + [f], metadata), source, limit);
        }
    }
  }

  /** `rest` is the end of the input, and `offset` where it begins. */
  predicate EndsAt(input: string, rest: string, offset: nat) {
    |rest| <= |input| && rest == input[|input| - |rest|..] && offset + ByteLen(rest) == ByteLen(input)
  }

  lemma SuffixEndsAt(input: string, rest: string)
    requires |rest| <= |input| && rest == input[|input| - |rest|..]
    ensures ByteLen(rest) <= ByteLen(input) && EndsAt(input, rest, ByteLen(input) - ByteLen(rest))
  {
    Splits(input, |input| - |rest|);
  }

  lemma EndIsInPlace(input: string, rest: string, offset: nat)
    requires EndsAt(input, rest, offset)
    ensures At(input, offset, rest)
  {
    Splits(input, |input| - |rest|);
    assert StandsAt(input, |input| - |rest|, offset, rest);
  }

  lemma TrimmedEndsAt(input: string)
    ensures EndsAt(input, TrimStart(input), LeadingBytes(input))
  {
    hide TrimStart;
    SuffixEndsAt(input, TrimStart(input));
  }

  lemma NothingEndsAt(input: string)
    ensures EndsAt(input, "", ByteLen(input))
  {
  }

  lemma BodyEndsAt(input: string)
    requires |TrimStart(input)| >= 7
    ensures var body := TrimStart(TrimStart(input)[7..]);
            ByteLen(body) <= ByteLen(input) && EndsAt(input, body, ByteLen(input) - ByteLen(body))
  {
    hide TrimStart;
    var trimmed := TrimStart(input);
    SuffixOf(input, trimmed, 7, TrimStart(trimmed[7..]));
    SuffixEndsAt(input, TrimStart(trimmed[7..]));
  }

  /** However the front is read, the rest is the end of the input. */
  lemma LeadIsEnd(input: string)
    ensures EndsAt(input, StripLeadingExplain(input).rest, StripLeadingExplain(input).offset)
  {
    hide EndsAt, TrimStart, Upper, IsSpace, ByteAt, LeadingBytes;
    NothingEndsAt(input);
    TrimmedEndsAt(input);
    if |TrimStart(input)| >= 7 { BodyEndsAt(input); }
  }

  lemma LeadInPlace(input: string)
    ensures At(input, StripLeadingExplain(input).offset, StripLeadingExplain(input).rest)
  {
    hide StripLeadingExplain;
    LeadIsEnd(input);
    EndIsInPlace(input, StripLeadingExplain(input).rest, StripLeadingExplain(input).offset);
  }

  /** What is left of the input is where the record says it was, in order and without overlap. */
  lemma FragmentsArePlaced(input: string)
    ensures Placed(Collect(StripLeadingExplain(input)).fragments, input, ByteLen(input))
  {
    var lead := StripLeadingExplain(input);
    LeadInPlace(input);
    LinesStayPlaced(Collected([], map[]), lead.rest, lead.offset, input);
    StrippingStaysPlaced(AddLines(Collected([], map[]), Lines(lead.rest), lead.offset), input, ByteLen(input));
  }

  // ---------- pieces ----------

  predicate WellMapped(o: Output, source: string, limit: nat) {
    Tiles(o.pieces, 0, ByteLen(o.text)) && AllCopied(o.pieces, Encode(o.text), Encode(source)) && OriginsIncrease(o.pieces, limit)
  }

  lemma {:induction false} TilesOneMore(pieces: seq<Piece>, from: nat, to: nat, piece: Piece)
    requires Tiles(pieces, from, to) && piece.start == to && piece.len > 0
    ensures Tiles(pieces + [piece], from, piece.End())
    decreases |pieces|
  {
    if |pieces| == 0 {
      assert pieces + [piece] == [piece] && [piece][1..] == [];
    } else {
      TilesOneMore(pieces[1..], pieces[0].End(), to, piece);
      assert (pieces + [piece])[1..] == pieces[1..] + [piece];
    }
  }

  lemma CopiedInLonger(piece: Piece, rewritten: seq<Byte>, more: seq<Byte>, source: seq<Byte>)
    requires Copied(piece, rewritten, source)
    ensures Copied(piece, rewritten + more, source)
  {
    assert (rewritten + more)[piece.start..piece.End()] == rewritten[piece.start..piece.End()];
  }

  lemma OneMoreCopied(pieces: seq<Piece>, rewritten: seq<Byte>, more: seq<Byte>, origin: Option<Span>, source: seq<Byte>)
    requires AllCopied(pieces, rewritten, source)
    requires Copied(Piece(0, |more|, origin), more, source)
    ensures AllCopied(pieces + [Piece(|rewritten|, |more|, origin)], rewritten + more, source)
  {
    forall i | 0 <= i < |pieces| ensures Copied(pieces[i], rewritten + more, source) {
      CopiedInLonger(pieces[i], rewritten, more, source);
    }
    assert (rewritten + more)[|rewritten|..|rewritten| + |more|] == more[0..|more|];
  }

  lemma EmitKeepsCopies(o: Output, text: string, origin: Option<Span>, source: string)
    requires AllCopied(o.pieces, Encode(o.text), Encode(source))
    requires origin.Some? ==> origin.value.len == ByteLen(text) && At(source, origin.value.offset, text)
    ensures AllCopied(Emit(o, text, origin).pieces, Encode(o.text + text), Encode(source))
  {
    hide Encode;
    EncodeConcat(o.text, text);
    ByteLenIsEncodedLength(o.text);
    ByteLenIsEncodedLength(text);
    if origin.Some? { AtInBytes(source, origin.value.offset, text); }
    OneMoreCopied(o.pieces, Encode(o.text), Encode(text), origin, Encode(source));
  }

  lemma ByteLenIsEncodedLength(s: string)
    ensures ByteLen(s) == |Encode(s)|
  {
    ByteAtIsEncodedLength(s, |s|);
    assert s[..|s|] == s;
  }

  lemma PositiveLength(text: string)
    requires text != ""
    ensures ByteLen(text) > 0
  {
  }

  lemma EmitKeepsMap(o: Output, text: string, origin: Option<Span>, source: string, limit: nat)
    requires WellMapped(o, source, limit) && text != ""
    requires origin.Some? ==> origin.value.len == ByteLen(text) && At(source, origin.value.offset, text)
    requires origin.Some? ==> limit <= origin.value.offset
    ensures WellMapped(Emit(o, text, origin), source, if origin.Some? then origin.value.End() else limit)
  {
    hide Encode, AllCopied, ByteAt, At;
    EmitKeepsCopies(o, text, origin, source);
    PositiveLength(text);
    ByteLenConcat(o.text, text);
    TilesOneMore(o.pieces, 0, ByteLen(o.text), Piece(ByteLen(o.text), ByteLen(text), origin));
  }

  lemma {:induction false} RenderingIsMapped(fragments: seq<Fragment>, n: nat, source: string)
    requires n <= |fragments| && Placed(fragments, source, ByteLen(source))
    ensures WellMapped(RenderTo(fragments, n), source, if n == 0 then 0 else fragments[n - 1].origin.End())
  {
    if n == 0 {
      if FromFirst(fragments) { EmitKeepsMap(Output("", []), "SELECT * ", None, source, 0); }
    } else {
      RenderingIsMapped(fragments, n - 1, source);
      var before := RenderTo(fragments, n - 1);
      var limit := if n == 1 then 0 else fragments[n - 2].origin.End();
      var f := fragments[n - 1];
      var separated := if n > 1 then Emit(before, " ", None) else before;
      if n > 1 { EmitKeepsMap(before, " ", None, source, limit); }
      EmitKeepsMap(separated, f.text, Some(f.origin), source, limit);
    }
  }

  lemma MappedLater(o: Output, source: string, limit: nat, later: nat)
    requires WellMapped(o, source, limit) && limit <= later
    ensures WellMapped(o, source, later)
  {
  }

  /**
   * For every input the pieces tile the rewritten text, each piece with an origin repeats the bytes found there,
   * and origins increase without overlap.
   */
  lemma RewritingIsMapped(input: string)
    ensures WellMapped(Rewrite(input).output, input, ByteLen(input))
  {
    var fragments := Collect(StripLeadingExplain(input)).fragments;
    FragmentsArePlaced(input);
    RenderingIsMapped(fragments, |fragments|, input);
    MappedLater(RenderTo(fragments, |fragments|), input,
                if |fragments| == 0 then 0 else fragments[|fragments| - 1].origin.End(), ByteLen(input));
  }

  /** The source map of a rewriting. */
  function MapOf(input: string): SourceMap {
    var o := Rewrite(input).output;
    SourceMap(o.text, o.pieces, LineStarts(o.text))
  }

  lemma MapIsFaithful(input: string)
    ensures Faithful(MapOf(input), Encode(input)) && OriginsIncrease(MapOf(input).pieces, |Encode(input)|)
  {
    hide Rewrite, Tiles, AllCopied, OriginsIncrease, Encode, LineStarts;
    RewritingIsMapped(input);
    ByteLenIsEncodedLength(MapOf(input).rewritten);
    ByteLenIsEncodedLength(input);
  }

  /** The answer for the rewritten characters from `i` up to `j` is sound. */
  ghost predicate MapsBack(input: string, i: nat, j: nat)
    requires i < j <= |MapOf(input).rewritten|
  {
    var m := MapOf(input);
    var range := TrueRange(m.rewritten, i, j);
    SoundAnswer(m.MapSqlSpan(SpanOf(m.rewritten, i, j)), m.pieces, range.offset, range.End(), Encode(m.rewritten), Encode(input))
  }

  /** A span the SQL parser reports on rewritten SyQL maps back soundly if and only if it ends on the right copied piece. */
  lemma SyqlSpansMapBackExactly(input: string, i: nat, j: nat)
    requires i < j <= |MapOf(input).rewritten|
    ensures var m := MapOf(input);
            var span := SpanOf(m.rewritten, i, j);
            m.SpanToRewritten(span).Some? &&
            (MapsBack(input, i, j) <==>
             LastCopied(m.pieces, m.SpanToRewritten(span).value) == LastCopied(m.pieces, TrueRange(m.rewritten, i, j)))
  {
    hide Rewrite, LastCopied, SoundAnswer, Faithful, OriginsIncrease;
    MapIsFaithful(input);
    SpansMapBackExactly(MapOf(input), Encode(input), i, j);
  }

  /** So it does behind ASCII text. */
  lemma AsciiSyqlSpansMapBack(input: string, i: nat, j: nat)
    requires i < j <= |MapOf(input).rewritten|
    requires AsciiLine(MapOf(input).rewritten, i) && AsciiLine(MapOf(input).rewritten, j)
    ensures MapsBack(input, i, j)
  {
    hide Rewrite, SoundAnswer, Faithful;
    MapIsFaithful(input);
    SpansMapBackSoundly(MapOf(input), Encode(input), i, j);
  }

  // ---------- and elsewhere it can be lost ----------

  lemma ShortLengths(c: char, d: char)
    ensures ByteLen([c]) == CharLen(c) && ByteLen([c, d]) == CharLen(c) + CharLen(d)
  {
    assert ByteAt([c], 1) == ByteAt([c], 0) + CharLen(c);
    assert ByteAt([c, d], 2) == ByteAt([c, d], 1) + CharLen(d);
  }

  lemma OneCharLine(c: char)
    requires !IsSpace(c)
    ensures Classify([c]) == Query([c]) && LeadingBytes([c]) == 0 && ByteLen([c]) == CharLen(c)
  {
    assert Trim([c]) == [c];
    ShortLengths(c, c);
  }

  lemma TwoLines(c: char, d: char)
    requires !IsSpace(c) && !IsSpace(d)
    ensures StripLeadingExplain([c, '\n', d]) == Lead(false, [c, '\n', d], 0)
    ensures Lines([c, '\n', d]) == [[c], [d]]
  {
    hide IsSpace;
    var input := [c, '\n', d];
    NewlineIsSpace();
    assert TrimStart(input) == input;
    assert LineEnd(input, 1) == 1 && LineEnd([d], 1) == 1;
    assert input[2..] == [d] && input[..1] == [c];
    assert Lines([d]) == [[d]];
  }

  lemma NewlineIsSpace()
    ensures IsSpace('\n')
  {
  }

  lemma NoDirectiveInOneChar(d: char)
    ensures StripTrailingDirective([d]).None?
  {
    assert Upper([d]) == [UpperChar(d)];
    assert !OccursAt(Needle(Download), Upper([d]), 0) && !OccursAt(Needle(Scope), Upper([d]), 0);
    assert LastBefore(Needle(Download), Upper([d]), 0).None? && LastBefore(Needle(Scope), Upper([d]), 0).None?;
  }

  lemma TwoFragments(c: char, d: char)
    requires !IsSpace(c) && !IsSpace(d)
    ensures Collect(Lead(false, [c, '\n', d], 0)).fragments ==
            [Fragment([c], Span(0, CharLen(c))), Fragment([d], Span(CharLen(c) + 1, CharLen(d)))]
  {
    hide IsSpace, Classify, LeadingBytes, StripTrailingDirective, Lines, ByteAt;
    TwoLines(c, d);
    OneCharLine(c);
    OneCharLine(d);
    NoDirectiveInOneChar(d);
    var first := AddLine(Collected([], map[]), [c], 0);
    MoreLines(Collected([], map[]), [c], [[d]], 0);
    OneLine(first, [d], 0 + CharLen(c) + 1);
    assert [[c]] + [[d]] == [[c], [d]];
  }

  lemma TwoPieces(c: char, d: char)
    requires !IsSpace(c) && !IsSpace(d)
    ensures Rewrite([c, '\n', d]).output ==
            Output([c, ' ', d], [Piece(0, CharLen(c), Some(Span(0, CharLen(c)))), Piece(CharLen(c), 1, None),
                                 Piece(CharLen(c) + 1, CharLen(d), Some(Span(CharLen(c) + 1, CharLen(d))))])
  {
    hide IsSpace, StripLeadingExplain, Collect;
    TwoLines(c, d);
    TwoFragments(c, d);
    var fragments := Collect(Lead(false, [c, '\n', d], 0)).fragments;
    assert |Upper([c])| == 1 && !FromFirst(fragments);
    var one := Emit(Output("", []), [c], Some(fragments[0].origin));
    assert RenderTo(fragments, 0) == Output("", []) && RenderTo(fragments, 1) == one;
    ShortLengths(c, ' ');
    ShortLengths(' ', d);
    ShortLengths(d, ' ');
    assert one.text == [c] && [c] + " " == [c, ' '] && [c, ' '] + [d] == [c, ' ', d];
  }

  lemma ThreeChars(c: char, d: char)
    requires c != '\n' && d != '\n'
    ensures var text := [c, ' ', d];
            LocationAt(text, 2) == Location(1, 3) && LocationAt(text, 3) == Location(1, 4) && LineStarts(text) == [0] &&
            ByteAt(text, 2) == CharLen(c) + 1 && ByteAt(text, 3) == CharLen(c) + 1 + CharLen(d)
  {
    var text := [c, ' ', d];
    assert LocationAt(text, 1) == Location(1, 2) && LineStartsTo(text, 1) == [0] && ByteAt(text, 1) == CharLen(c);
    assert LocationAt(text, 2) == Location(1, 3) && LineStartsTo(text, 2) == [0];
  }

  /**
   * Two lines that keep their only characters, the first of two bytes: the span of the second is mapped to
   * nothing, although it was copied from the byte behind the newline.
   */
  lemma WideCharLosesSpan(c: char, d: char)
    requires !IsSpace(c) && !IsSpace(d) && CharLen(c) == 2 && CharLen(d) == 1
    ensures var m := MapOf([c, '\n', d]);
            m.rewritten == [c, ' ', d] && m.MapSqlSpan(SpanOf(m.rewritten, 2, 3)) == None && OriginOf(m.pieces, 3) == Some(3)
    ensures !MapsBack([c, '\n', d], 2, 3)
  {
    hide IsSpace, Rewrite, LocationAt, LineStartsTo, ByteAt, UnionAll;
    TwoPieces(c, d);
    var m := MapOf([c, '\n', d]);
    var text := m.rewritten;
    NewlineIsSpace();
    ThreeChars(c, d);
    assert m.SpanToRewritten(SpanOf(text, 2, 3)) == Some(Span(2, 1));
    assert m.pieces[1..][1..] == [m.pieces[2]] && m.pieces[1..][0] == m.pieces[1] && m.pieces[2..][1..] == [];
    assert forall i :: 0 <= i < 3 ==> !TouchesCopy(m.pieces[i], Span(2, 1));
    NoAnswerExactly(m.pieces, Span(2, 1));
    assert OriginOf(m.pieces, 3) == OriginOf([m.pieces[2]], 3);
  }

  // ---------- a directive at the end changes the metadata and nothing else ----------

  lemma UpperKeepsSpaces(c: char)
    ensures UpperChar(c) == ' ' <==> c == ' '
  {
  }

  lemma NoSpaceIsTrimmed(s: string)
    requires !HasSpace(s)
    ensures Trim(s) == s
  {
    if s != "" { assert !IsSpace(s[0]) && !IsSpace(s[|s| - 1]); }
  }

  /** A needle that ends in a space cannot begin after the last one. */
  lemma LastNeedle(text: string, key: Directive, value: string)
    requires value != "" && !HasSpace(value)
    ensures var full := text + (Needle(key) + value);
            LastBefore(Needle(key), Upper(full), |full|) == Some(|text|)
  {
    hide LastBefore, IsSpace;
    var needle := Needle(key);
    var full := text + (needle + value);
    var upper := Upper(full);
    assert upper[|text|..|text| + |needle|] == needle;
    assert OccursAt(needle, upper, |text|);
    forall i | |text| < i < |full| ensures !OccursAt(needle, upper, i) {
      NeedleEndsInSpace(key, upper, i);
      assert full == (text + needle) + value;
      if i + |needle| <= |full| { NoSpaceInValue(text + needle, value, i + |needle| - 1); }
    }
  }

  lemma NeedleEndsInSpace(key: Directive, s: string, i: nat)
    ensures OccursAt(Needle(key), s, i) ==> s[i + |Needle(key)| - 1] == ' '
  {
    if OccursAt(Needle(key), s, i) {
      assert s[i..i + |Needle(key)|][|Needle(key)| - 1] == ' ';
    }
  }

  lemma NoSpaceInValue(front: string, value: string, k: nat)
    requires |front| <= k < |front + value| && !HasSpace(value)
    ensures Upper(front + value)[k] != ' '
  {
    assert !IsSpace(value[k - |front|]);
    UpperKeepsSpaces((front + value)[k]);
  }

  lemma SplitsAt(a: string, b: string, c: string)
    ensures (a + (b + c))[..|a|] == a && (a + (b + c))[|a| + |b|..] == c
  {
  }

  lemma StripsItsOwn(text: string, key: Directive, value: string)
    requires value != "" && !HasSpace(value)
    ensures StripDirective(text + (Needle(key) + value), key) == Some(Stripped(TrimEnd(text), value, key))
  {
    hide Needle, LastBefore, IsSpace, TrimEnd, Trim, HasSpace, Upper;
    LastNeedle(text, key, value);
    NoSpaceIsTrimmed(value);
    SplitsAt(text, Needle(key), value);
  }

  lemma TrimStartCuts(s: string, q: nat)
    requires q < |s| && !IsSpace(s[q])
    ensures |s| - q <= |TrimStart(s)|
  {
    hide IsSpace;
  }

  lemma InnerSpaceStays(s: string, q: nat, p: nat)
    requires q < p < |s| && !IsSpace(s[q]) && IsSpace(s[p]) && !IsSpace(s[|s| - 1])
    ensures HasSpace(Trim(s))
  {
    hide TrimStart, IsSpace;
    TrimStartCuts(s, q);
    var kept := TrimStart(s);
    var m := |s| - |kept|;
    assert kept[|kept| - 1] == s[m..][|kept| - 1];
    assert TrimEnd(kept) == kept;
    assert kept[p - m] == s[m..][p - m];
  }

  lemma ScopeLetters(text: string, value: string)
    requires value != ""
    ensures var full := text + (Needle(Scope) + value);
            |full| == |text| + 7 + |value| && full[|text| + 1] == 'S' && full[|text| + 6] == ' ' &&
            full[|full| - 1] == value[|value| - 1]
  {
  }

  /** What follows a DOWNLOAD before the SCOPE is no value, for it contains the SCOPE. */
  lemma NoDownloadBeforeScope(text: string, value: string)
    requires value != "" && !HasSpace(value)
    ensures StripDirective(text + (Needle(Scope) + value), Download).None?
  {
    hide LastBefore, IsSpace, HasSpace, Trim, TrimEnd;
    ScopeLetters(text, value);
    var full := text + (Needle(Scope) + value);
    var found := LastBefore(Needle(Download), Upper(full), |full|);
    if found.Some? {
      var i := found.value;
      DownloadEndsEarly(text, value, i);
      var after := full[i + 10..];
      var q := |text| + 1 - (i + 10);
      assert i + 10 + q == |text| + 1;
      assert after[q] == 'S' && after[q + 5] == ' ' && after[|after| - 1] == value[|value| - 1];
      LettersAndSpaces(value);
      InnerSpaceStays(after, q, q + 5);
    }
  }

  lemma LettersAndSpaces(value: string)
    requires value != "" && !HasSpace(value)
    ensures IsSpace(' ') && !IsSpace('S') && !IsSpace(value[|value| - 1])
  {
  }

  lemma DownloadEndsEarly(text: string, value: string, i: nat)
    requires !HasSpace(value)
    requires OccursAt(Needle(Download), Upper(text + (Needle(Scope) + value)), i)
    ensures i + 10 <= |text| + 1
  {
    hide IsSpace, HasSpace;
    var full := text + (Needle(Scope) + value);
    var upper := Upper(full);
    var last := i + 9;
    NeedleEndsInSpace(Download, upper, i);
    assert upper[i..i + 10][8] == 'D' && upper[i + 8] == 'D';
    assert full == (text + Needle(Scope)) + value;
    if last >= |text| + 7 {
      NoSpaceInValue(text + Needle(Scope), value, last);
    }
  }

  /** The directive closest to the end is taken off, whatever stands before it. */
  lemma LastDirectiveIsStripped(text: string, key: Directive, value: string)
    requires value != "" && !HasSpace(value)
    ensures StripTrailingDirective(text + (Needle(key) + value)) == Some(Stripped(TrimEnd(text), value, key))
  {
    hide StripDirective, Needle, TrimEnd, HasSpace;
    StripsItsOwn(text, key, value);
    if key == Scope { NoDownloadBeforeScope(text, value); }
  }

  /** The fragments with a directive written behind the last one. */
  function Directed(fragments: seq<Fragment>, key: Directive, value: string): seq<Fragment>
    requires |fragments| > 0
  {
    var n := |fragments| - 1;
    var text := fragments[n].text + (Needle(key) + value);
    fragments[..n] + [Fragment(text, Span(fragments[n].origin.offset, ByteLen(text)))]
  }

  /** Trimmed text under the length it should have. */
  predicate Trimmed(f: Fragment) {
    f.text != "" && TrimEnd(f.text) == f.text && f.origin.len == ByteLen(f.text)
  }

  /** One round takes the directive off again and records it. */
  lemma DirectiveIsUndone(c: Collected, key: Directive, value: string)
    requires |c.fragments| > 0 && Trimmed(c.fragments[|c.fragments| - 1])
    requires value != "" && !HasSpace(value)
    ensures StripAll(Collected(Directed(c.fragments, key, value), c.metadata)) ==
            StripAll(Collected(c.fragments, c.metadata[key := Lower(value)]))
  {
    hide StripTrailingDirective, Needle, TrimEnd, HasSpace, ByteAt;
    var n := |c.fragments| - 1;
    var last := c.fragments[n];
    LastDirectiveIsStripped(last.text, key, value);
    var directed := Directed(c.fragments, key, value);
    assert directed[..|directed| - 1] == c.fragments[..n];
    assert WithoutTail(directed[n], last.text) == last;
    assert c.fragments[..n] + [last] == c.fragments;
  }

  /** A directive behind a query that has none sets the metadata and leaves the query as it was. */
  lemma DirectiveOnlySetsMetadata(c: Collected, key: Directive, value: string)
    requires |c.fragments| > 0 && Trimmed(c.fragments[|c.fragments| - 1])
    requires StripTrailingDirective(c.fragments[|c.fragments| - 1].text).None?
    requires value != "" && !HasSpace(value)
    ensures StripAll(Collected(Directed(c.fragments, key, value), c.metadata)) ==
            Collected(c.fragments, c.metadata[key := Lower(value)])
  {
    hide StripTrailingDirective, Directed, HasSpace, TrimEnd;
    DirectiveIsUndone(c, key, value);
  }

  /** Written twice on one line, a directive keeps its first value, unlike directives on lines of their own. */
  lemma FirstInlineDirectiveWins(c: Collected, key: Directive, first: string, second: string)
    requires |c.fragments| > 0 && Trimmed(c.fragments[|c.fragments| - 1])
    requires StripTrailingDirective(c.fragments[|c.fragments| - 1].text).None?
    requires first != "" && !HasSpace(first) && second != "" && !HasSpace(second)
    ensures StripAll(Collected(Directed(Directed(c.fragments, key, first), key, second), c.metadata)) ==
            Collected(c.fragments, c.metadata[key := Lower(first)])
  {
    hide StripTrailingDirective, HasSpace, StripAll, TrimEnd, Needle, ByteAt;
    var once := Directed(c.fragments, key, first);
    DirectedIsTrimmed(c.fragments, key, first);
    DirectiveIsUndone(Collected(once, c.metadata), key, second);
    DirectiveOnlySetsMetadata(Collected(c.fragments, c.metadata[key := Lower(second)]), key, first);
    assert c.metadata[key := Lower(second)][key := Lower(first)] == c.metadata[key := Lower(first)];
  }

  lemma DirectedIsTrimmed(fragments: seq<Fragment>, key: Directive, value: string)
    requires |fragments| > 0 && value != "" && !HasSpace(value)
    ensures |Directed(fragments, key, value)| == |fragments|
    ensures Trimmed(Directed(fragments, key, value)[|fragments| - 1])
  {
    var text := fragments[|fragments| - 1].text + (Needle(key) + value);
    assert !IsSpace(value[|value| - 1]);
    assert text[|text| - 1] == value[|value| - 1];
  }
}
