/** Rewriting SyQL to SQL: directives out, `FROM` first made a query, and a record of what came from where (dialect-syql). */
module Syql {
  import opened SourceMapping
  import opened Text
  import opened Wrappers

  datatype Fragment = Fragment(text: string, origin: Span)

  datatype Directive = Scope | Download

  type Metadata = map<Directive, string>

  /** The query lines kept so far and the directives taken out. */
  datatype Collected = Collected(fragments: seq<Fragment>, metadata: Metadata)

  datatype Lead = Lead(explain: bool, rest: string, offset: nat)

  datatype Output = Output(text: string, pieces: seq<Piece>)

  datatype Rewriting = Rewriting(explain: bool, metadata: Metadata, output: Output)

  lemma Splits(s: string, k: nat)
    requires k <= |s|
    ensures ByteLen(s) == ByteAt(s, k) + ByteLen(s[k..])
    ensures ByteAt(s, k) == ByteLen(s[..k])
  {
    assert s == s[..k] + s[k..];
    ByteLenConcat(s[..k], s[k..]);
    ByteAtConcat(s[..k], s[k..], k);
  }

  /** How many bytes `TrimStart` takes off. */
  function LeadingBytes(s: string): nat {
    var kept := TrimStart(s);
    Splits(s, |s| - |kept|);
    ByteLen(s) - ByteLen(kept)
  }

  function StripLeadingExplain(input: string): Lead {
    var trimmed := TrimStart(input);
    var upper := Upper(trimmed);
    if upper == "EXPLAIN" then Lead(true, "", ByteLen(input))
    else if "EXPLAIN" <= upper && (|trimmed| == 7 || IsSpace(trimmed[7])) then
      var body := TrimStart(trimmed[7..]);
      SuffixOf(input, trimmed, 7, body);
      Lead(true, body, ByteLen(input) - ByteLen(body))
    else Lead(false, trimmed, LeadingBytes(input))
  }

  lemma SuffixOf(input: string, trimmed: string, skip: nat, body: string)
    requires |trimmed| <= |input| && trimmed == input[|input| - |trimmed|..]
    requires skip + |body| <= |trimmed| && body == trimmed[skip..][|trimmed| - skip - |body|..]
    ensures |body| <= |input| && body == input[|input| - |body|..]
    ensures ByteLen(body) <= ByteLen(input)
  {
    Splits(input, |input| - |body|);
  }

  // ---------- line by line ----------

  datatype Line = Blank | Setting(key: Directive, value: string) | Query(text: string)

  function Classify(line: string): Line {
    var trimmed := Trim(line);
    var upper := Upper(trimmed);
    if trimmed == "" then Blank
    else if "SCOPE " <= upper then Setting(Scope, Lower(upper[6..]))
    else if "DOWNLOAD " <= upper then Setting(Download, Lower(upper[9..]))
    else Query(trimmed)
  }

  function AddLine(c: Collected, line: string, offset: nat): Collected {
    match Classify(line)
    case Blank => c
    case Setting(key, value) => Collected(c.fragments, c.metadata[key := value])
    case Query(text) =>
      Collected(c.fragments + [Fragment(text, Span(offset + LeadingBytes(line), ByteLen(text)))], c.metadata)
  }

  /** Where the line that reaches `i` ends. */
  function LineEnd(s: string, i: nat): (end: nat)
    requires i <= |s|
    ensures i <= end <= |s|
    ensures end < |s| ==> s[end] == '\n'
    ensures forall k :: i <= k < end ==> s[k] != '\n'
    decreases |s| - i
  {
    if i == |s| || s[i] == '\n' then i else LineEnd(s, i + 1)
  }

  /** `split('\n')` */
  function Lines(s: string): (lines: seq<string>)
    ensures |lines| > 0
    decreases |s|
  {
    var end := LineEnd(s, 0);
    if end == |s| then [s] else [s[..end]] + Lines(s[end + 1..])
  }

  function AddLines(c: Collected, lines: seq<string>, offset: nat): Collected
    decreases |lines|
  {
    if |lines| == 0 then c else AddLines(AddLine(c, lines[0], offset), lines[1..], offset + ByteLen(lines[0]) + 1)
  }

  lemma NextLine(c: Collected, lines: seq<string>, i: nat, offset: nat)
    requires i < |lines|
    ensures AddLines(c, lines[i..], offset) ==
            AddLines(AddLine(c, lines[i], offset), lines[i + 1..], offset + ByteLen(lines[i]) + 1)
  {
    hide AddLine, ByteAt;
    var rest := lines[i..];
    assert |rest| > 0 && rest[0] == lines[i] && rest[1..] == lines[i + 1..];
  }

  method CollectLines(lines: seq<string>, restOffset: nat) returns (c: Collected)
    ensures c == AddLines(Collected([], map[]), lines, restOffset)
  {
    hide AddLine;
    c := Collected([], map[]);
    var cursor := 0;
    for i := 0 to |lines|
      invariant cursor >= 0
      invariant AddLines(c, lines[i..], restOffset + cursor) == AddLines(Collected([], map[]), lines, restOffset)
    {
      NextLine(c, lines, i, restOffset + cursor);
      c := AddLine(c, lines[i], restOffset + cursor);
      cursor := cursor + ByteLen(lines[i]) + 1;
    }
  }

  // ---------- directives at the end of the last line ----------

  predicate OccursAt(needle: string, s: string, i: int) {
    0 <= i && i + |needle| <= |s| && s[i..i + |needle|] == needle
  }

  /** The last place before `end` where `needle` occurs. */
  function LastBefore(needle: string, s: string, end: nat): (r: Option<nat>)
    ensures r.Some? ==> r.value < end && OccursAt(needle, s, r.value) && forall i :: r.value < i < end ==> !OccursAt(needle, s, i)
    ensures r.None? ==> forall i :: 0 <= i < end ==> !OccursAt(needle, s, i)
  {
    if end == 0 then None else if OccursAt(needle, s, end - 1) then Some(end - 1) else LastBefore(needle, s, end - 1)
  }

  function Needle(key: Directive): string {
    match key
    case Download => " DOWNLOAD "
    case Scope => " SCOPE "
  }

  datatype Stripped = Stripped(prefix: string, value: string, key: Directive)

  function StripDirective(text: string, key: Directive): (r: Option<Stripped>)
    ensures r.Some? ==> |r.value.prefix| < |text| && r.value.prefix <= text
  {
    var needle := Needle(key);
    match LastBefore(needle, Upper(text), |text|)
    case None => None
    case Some(i) =>
      var prefix := TrimEnd(text[..i]);
      var value := Trim(text[i + |needle|..]);
      if value != "" && !HasSpace(value) then Some(Stripped(prefix, value, key)) else None
  }

  function StripTrailingDirective(text: string): (r: Option<Stripped>)
    ensures r.Some? ==> |r.value.prefix| < |text| && r.value.prefix <= text
  {
    match StripDirective(text, Download)
    case Some(stripped) => Some(stripped)
    case None => StripDirective(text, Scope)
  }

  function WithoutTail(f: Fragment, prefix: string): Fragment {
    Fragment(prefix, Span(f.origin.offset, ByteLen(prefix)))
  }

  function LastLength(fragments: seq<Fragment>): nat {
    if |fragments| == 0 then 0 else |fragments[|fragments| - 1].text|
  }

  function StripAll(c: Collected): Collected
    decreases |c.fragments|, LastLength(c.fragments)
  {
    if |c.fragments| == 0 then c
    else
      var earlier, last := c.fragments[..|c.fragments| - 1], c.fragments[|c.fragments| - 1];
      match StripTrailingDirective(last.text)
      case None => c
      case Some(s) =>
        StripAll(Collected(if s.prefix == "" then earlier else earlier + [WithoutTail(last, s.prefix)],
                           c.metadata[s.key := Lower(s.value)]))
  }

  method StripTrailingDirectives(c: Collected) returns (r: Collected)
    ensures r == StripAll(c)
  {
    hide StripTrailingDirective, ByteAt;
    var fragments, metadata := c.fragments, c.metadata;
    while |fragments| > 0
      invariant StripAll(Collected(fragments, metadata)) == StripAll(c)
      decreases |fragments|, LastLength(fragments)
    {
      var last := fragments[|fragments| - 1];
      var stripped := StripTrailingDirective(last.text);
      if stripped.None? {
        break;
      }
      metadata := metadata[stripped.value.key := Lower(stripped.value.value)];
      fragments := fragments[..|fragments| - 1];
      if stripped.value.prefix != "" {
        fragments := fragments + [WithoutTail(last, stripped.value.prefix)];
      }
    }
    r := Collected(fragments, metadata);
  }

  // ---------- putting the query together ----------

  predicate FromFirst(fragments: seq<Fragment>) {
    |fragments| > 0 && "FROM " <= Upper(fragments[0].text)
  }

  function Emit(o: Output, text: string, origin: Option<Span>): Output {
    Output(o.text + text, o.pieces + [Piece(ByteLen(o.text), ByteLen(text), origin)])
  }

  /** The output once the first `n` fragments are written. */
  function RenderTo(fragments: seq<Fragment>, n: nat): Output
    requires n <= |fragments|
  {
    if n == 0 then
      if FromFirst(fragments) then Emit(Output("", []), "SELECT * ", None) else Output("", [])
    else
      var before := RenderTo(fragments, n - 1);
      var separated := if n > 1 then Emit(before, " ", None) else before;
      Emit(separated, fragments[n - 1].text, Some(fragments[n - 1].origin))
  }

  method Render(fragments: seq<Fragment>) returns (o: Output)
    ensures o == RenderTo(fragments, |fragments|)
  {
    hide Upper;
    var rewritten, pieces := "", [];
    if FromFirst(fragments) {
      rewritten := rewritten + "SELECT * ";
      pieces := pieces + [Piece(0, ByteLen("SELECT * "), None)];
    }
    for idx := 0 to |fragments|
      invariant Output(rewritten, pieces) == RenderTo(fragments, idx)
    {
      if idx > 0 {
        var start := ByteLen(rewritten);
        rewritten := rewritten + " ";
        pieces := pieces + [Piece(start, ByteLen(" "), None)];
      }
      var start := ByteLen(rewritten);
      rewritten := rewritten + fragments[idx].text;
      pieces := pieces + [Piece(start, ByteLen(fragments[idx].text), Some(fragments[idx].origin))];
    }
    o := Output(rewritten, pieces);
  }

  /** The fragments and directives found behind a leading EXPLAIN. */
  function Collect(lead: Lead): Collected {
    StripAll(AddLines(Collected([], map[]), Lines(lead.rest), lead.offset))
  }

  function Rewrite(input: string): Rewriting {
    var lead := StripLeadingExplain(input);
    var c := Collect(lead);
    Rewriting(lead.explain, c.metadata, RenderTo(c.fragments, |c.fragments|))
  }

  method ParseSyql(input: string) returns (explain: bool, metadata: Metadata, m: SourceMap)
    ensures var r := Rewrite(input);
            explain == r.explain && metadata == r.metadata &&
            m == SourceMap(r.output.text, r.output.pieces, LineStarts(r.output.text))
  {
    hide StripLeadingExplain, Lines, AddLines, StripAll, RenderTo, LineStarts;
    var lead := StripLeadingExplain(input);
    var c := CollectLines(Lines(lead.rest), lead.offset);
    c := StripTrailingDirectives(c);
    var o := Render(c.fragments);
    explain, metadata := lead.explain, c.metadata;
    m := NewSourceMap(o.text, o.pieces);
  }
}
