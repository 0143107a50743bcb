/** What a SyQL text is rewritten to, told by its words and lines. */
module SyqlMeaning {
  import opened SourceMapping
  import opened Sequences
  import opened Syql
  import opened Text
  import opened Wrappers

  // ---------- trimming and joining ----------

  /** What is left of the line without the white space around it. */
  ghost predicate TrimsTo(line: string, t: string) {
    IsTrimmed(t) && exists i: nat, j: nat :: i <= j <= |line| && t == line[i..j] && AllSpace(line[..i]) && AllSpace(line[j..])
  }

  function Joined(texts: seq<string>, separator: string): string {
    if |texts| == 0 then ""
    else if |texts| == 1 then texts[0]
    else Joined(texts[..|texts| - 1], separator) + (separator + texts[|texts| - 1])
  }

  // ---------- EXPLAIN ----------

  /** The text asks for an explanation when its first word is EXPLAIN; the query is what follows that word. */
  ghost predicate Explains(input: string, explain: bool, body: string) {
    exists from: nat, to: nat, start: nat :: FirstWord(input, from, to) && start <= |input| && body == input[start..] &&
      explain == SameWord(input[from..to], "EXPLAIN") &&
      if explain then IsGap(input, to, start) else start == from
  }

  /** The word stands between these two places, or there is none and both are the end. */
  predicate FirstWord(input: string, from: nat, to: nat) {
    from <= to <= |input| && AllSpace(input[..from]) && (from < |input| ==> IsWord(input[from..to])) &&
    (to < |input| ==> IsSpace(input[to]))
  }

  /** All the white space from one place on up to the other. */
  predicate IsGap(s: string, from: nat, to: nat) {
    from <= to <= |s| && AllSpace(s[from..to]) && (to < |s| ==> !IsSpace(s[to]))
  }

  /** The word that starts at `from`. */
  function WordEnd(s: string, from: nat): (to: nat)
    requires from <= |s|
    ensures from <= to <= |s| && (to < |s| ==> IsSpace(s[to]))
    ensures forall i :: from <= i < to ==> !IsSpace(s[i])
    decreases |s| - from
  {
    if from < |s| && !IsSpace(s[from]) then WordEnd(s, from + 1) else from
  }

  lemma LeadOf(input: string)
    ensures var lead, trimmed := StripLeadingExplain(input), TrimStart(input);
            var isWord := Upper(trimmed) == "EXPLAIN" || ("EXPLAIN" <= Upper(trimmed) && (|trimmed| == 7 || IsSpace(trimmed[7])));
            lead.explain == isWord && (isWord ==> |trimmed| >= 7) &&
            lead.rest == if !isWord then trimmed else if |trimmed| == 7 then "" else TrimStart(trimmed[7..])
  {
    hide Upper, IsSpace, TrimStart, LeadingBytes, ByteAt;
    var trimmed := TrimStart(input);
    if |trimmed| == 7 {
      assert trimmed[7..] == "" && TrimStart("") == "";
      assert Upper(trimmed) == "EXPLAIN" <==> "EXPLAIN" <= Upper(trimmed);
    }
  }

  lemma LeadExplains(input: string)
    ensures var lead := StripLeadingExplain(input); Explains(input, lead.explain, lead.rest)
  {
    hide StripLeadingExplain, IsSpace, Upper, FirstWord, IsGap, SameWord, WordEnd, TrimStart;
    var trimmed, lead := TrimStart(input), StripLeadingExplain(input);
    LeadOf(input);
    var from := |input| - |trimmed|;
    var to := WordEnd(input, from);
    assert trimmed == input[from..];
    WordIsFirst(input, from, to);
    WordBehind(input, from, to);
    ExplainWord(trimmed, to - from);
    var start := |input| - |lead.rest|;
    if lead.explain {
      GapBehind(input, trimmed, to, lead.rest);
    }
    assert lead.rest == input[start..];
    assert lead.explain == SameWord(input[from..to], "EXPLAIN");
  }

  lemma WordIsFirst(input: string, from: nat, to: nat)
    requires from == |input| - |TrimStart(input)| && to == WordEnd(input, from)
    ensures FirstWord(input, from, to)
  {
    hide IsSpace, WordEnd;
    assert TrimStart(input) == input[from..];
    if from < |input| {
      assert !IsSpace(input[from..][0]) && input[from..][0] == input[from];
      assert from < to;
      assert forall i :: 0 <= i < to - from ==> input[from..to][i] == input[from + i];
    }
    assert forall i :: 0 <= i < from ==> input[..from][i] == input[i];
  }

  lemma WordBehind(input: string, from: nat, to: nat)
    requires from <= |input| && to == WordEnd(input, from)
    ensures var trimmed := input[from..];
            trimmed[..to - from] == input[from..to] && (to < |input| ==> IsSpace(trimmed[to - from])) &&
            forall i :: 0 <= i < to - from ==> !IsSpace(trimmed[i])
  {
    hide IsSpace, WordEnd;
    assert forall i :: 0 <= i < to - from ==> input[from..][i] == input[from + i];
  }

  lemma GapBehind(input: string, trimmed: string, to: nat, rest: string)
    requires trimmed == TrimStart(input) && |trimmed| >= 7 && to == |input| - |trimmed| + 7
    requires rest == if |trimmed| == 7 then "" else TrimStart(trimmed[7..])
    ensures IsGap(input, to, |input| - |rest|) && rest == input[|input| - |rest|..]
  {
    hide IsSpace, TrimStart, IsGap;
    var behind := input[to..];
    assert trimmed[7..] == behind;
    if |trimmed| == 7 {
      assert behind == "";
      NoGap(input);
    } else {
      GapOf(input, to);
    }
  }

  lemma NoGap(input: string)
    ensures IsGap(input, |input|, |input|)
  {
  }

  lemma GapOf(input: string, to: nat)
    requires to <= |input|
    ensures var rest := TrimStart(input[to..]); IsGap(input, to, |input| - |rest|) && rest == input[|input| - |rest|..]
  {
    hide IsSpace, TrimStart;
    var behind := input[to..];
    var start := |input| - |TrimStart(behind)|;
    assert TrimStart(behind) == behind[start - to..] == input[start..];
    forall p | 0 <= p < start - to ensures IsSpace(input[to..start][p]) {
      assert input[to..start][p] == behind[p];
    }
  }

  /** The first word is EXPLAIN. */
  lemma ExplainWord(trimmed: string, to: nat)
    requires to <= |trimmed| && (to < |trimmed| ==> IsSpace(trimmed[to]))
    requires forall i :: 0 <= i < to ==> !IsSpace(trimmed[i])
    ensures SameWord(trimmed[..to], "EXPLAIN") <==>
            Upper(trimmed) == "EXPLAIN" || ("EXPLAIN" <= Upper(trimmed) && (|trimmed| == 7 || IsSpace(trimmed[7])))
    ensures SameWord(trimmed[..to], "EXPLAIN") ==> to == 7
  {
    hide Upper;
    UpperWord(trimmed, "EXPLAIN");
    if StartsWith(trimmed, "EXPLAIN") {
      var head := trimmed[..7];
      assert forall i :: 0 <= i < 7 ==> !IsSpace(trimmed[i]) by {
        forall i | 0 <= i < 7 ensures !IsSpace(trimmed[i]) {
          assert trimmed[i] == head[i] && SameLetter(head[i], "EXPLAIN"[i]);
        }
      }
    }
  }

  // ---------- lines ----------

  /** The text cut at its newlines. */
  predicate IsCut(body: string, lines: seq<string>) {
    |lines| > 0 && body == Joined(lines, "\n") && forall i :: 0 <= i < |lines| ==> '\n' !in lines[i]
  }

  lemma {:induction false} JoinedFirst(first: string, rest: seq<string>, separator: string)
    requires |rest| > 0
    ensures Joined([first] + rest, separator) == first + (separator + Joined(rest, separator))
    decreases |rest|
  {
    var all := [first] + rest;
    assert all[..|all| - 1] == [first] + rest[..|rest| - 1];
    if |rest| > 1 {
      var init, last := rest[..|rest| - 1], rest[|rest| - 1];
      JoinedFirst(first, init, separator);
      Regroup(first, separator + Joined(init, separator), separator + last);
      Regroup(separator, Joined(init, separator), separator + last);
    }
  }

  lemma {:induction false} LinesCut(s: string)
    ensures IsCut(s, Lines(s))
    decreases |s|
  {
    hide Joined;
    var end := LineEnd(s, 0);
    if end == |s| {
      OneJoined(s, "\n");
    } else {
      var first, rest := s[..end], s[end + 1..];
      LinesCut(rest);
      JoinedFirst(first, Lines(rest), "\n");
      assert s == first + ("\n" + rest);
    }
  }

  lemma OneJoined(s: string, separator: string)
    ensures Joined([s], separator) == s
  {
  }

  function Keyword(key: Directive): string {
    match key
    case Scope => "SCOPE"
    case Download => "DOWNLOAD"
  }

  /** A directive and the text of its value. */
  type Setting = (Directive, string)

  /** The line is nothing but the directive. */
  predicate IsSetting(t: string, key: Directive) {
    StartsWith(t, Keyword(key) + " ")
  }

  /** The directives that have a line of their own. */
  function Settings(trimmed: seq<string>): seq<Setting> {
    if |trimmed| == 0 then []
    else
      var t := trimmed[0];
      (if IsSetting(t, Scope) then [(Scope, t[6..])] else if IsSetting(t, Download) then [(Download, t[9..])] else []) +
      Settings(trimmed[1..])
  }

  /** The lines left when blank lines and directives are out. */
  function QueryLines(trimmed: seq<string>): seq<string> {
    if |trimmed| == 0 then []
    else
      var t := trimmed[0];
      (if t == "" || IsSetting(t, Scope) || IsSetting(t, Download) then [] else [t]) + QueryLines(trimmed[1..])
  }

  /** Each directive has the lower-cased value it was set to last, and one that was never set has none. */
  ghost predicate MetadataIs(metadata: Metadata, settings: seq<Setting>) {
    forall key :: if key in metadata then SetTo(settings, key, metadata[key]) else NeverSet(settings, key)
  }

  ghost predicate SetTo(settings: seq<Setting>, key: Directive, value: string) {
    exists i :: 0 <= i < |settings| && settings[i].0 == key && IsLower(settings[i].1, value) &&
      NeverSet(settings[i + 1..], key)
  }

  predicate NeverSet(settings: seq<Setting>, key: Directive) {
    forall i :: 0 <= i < |settings| ==> settings[i].0 != key
  }

  lemma NeverSetBoth(settings: seq<Setting>, one: Setting, key: Directive)
    ensures NeverSet(settings + [one], key) <==> NeverSet(settings, key) && one.0 != key
  {
    var after := settings + [one];
    assert after[|settings|] == one && forall i :: 0 <= i < |settings| ==> after[i] == settings[i];
  }

  lemma StaysSet(settings: seq<Setting>, one: Setting, key: Directive, value: string)
    requires SetTo(settings, key, value) && one.0 != key
    ensures SetTo(settings + [one], key, value)
  {
    hide IsLower, NeverSet;
    var after := settings + [one];
    var i :| 0 <= i < |settings| && settings[i].0 == key && IsLower(settings[i].1, value) && NeverSet(settings[i + 1..], key);
    assert after[i] == settings[i] && after[i + 1..] == settings[i + 1..] + [one];
    NeverSetBoth(settings[i + 1..], one, key);
  }

  lemma IsSetNow(settings: seq<Setting>, key: Directive, text: string, value: string)
    requires IsLower(text, value)
    ensures SetTo(settings + [(key, text)], key, value)
  {
    hide IsLower;
    var after := settings + [(key, text)];
    assert after[|settings|] == (key, text) && after[|settings| + 1..] == [];
  }

  lemma SetsOne(metadata: Metadata, settings: seq<Setting>, key: Directive, text: string, value: string)
    requires MetadataIs(metadata, settings) && IsLower(text, value)
    ensures MetadataIs(metadata[key := value], settings + [(key, text)])
  {
    hide IsLower, SetTo, NeverSet;
    var updated, after := metadata[key := value], settings + [(key, text)];
    forall other ensures if other in updated then SetTo(after, other, updated[other]) else NeverSet(after, other) {
      if other == key {
        IsSetNow(settings, key, text, value);
      } else if other in metadata {
        StaysSet(settings, (key, text), other, metadata[other]);
      } else {
        NeverSetBoth(settings, (key, text), other);
      }
    }
  }

  ghost predicate AllTrimmed(lines: seq<string>, trimmed: seq<string>) {
    |trimmed| == |lines| && forall i :: 0 <= i < |lines| ==> TrimsTo(lines[i], trimmed[i])
  }

  lemma TrimTrims(line: string)
    ensures TrimsTo(line, Trim(line))
  {
    hide IsSpace;
    var start := TrimStart(line);
    var i := |line| - |start|;
    var j := i + |TrimEnd(start)|;
    assert TrimEnd(start) == line[i..j];
    assert AllSpace(line[j..]) by {
      forall k | 0 <= k < |line[j..]| ensures IsSpace(line[j..][k]) {
        assert line[j..][k] == start[j - i + k];
      }
    }
  }

  function Texts(fragments: seq<Fragment>): (texts: seq<string>)
    ensures |texts| == |fragments| && forall i :: 0 <= i < |fragments| ==> texts[i] == fragments[i].text
  {
    seq(|fragments|, i requires 0 <= i < |fragments| => fragments[i].text)
  }

  lemma ClassifiedLine(line: string)
    ensures var t := Trim(line);
            match Classify(line)
            case Blank => t == ""
            case Setting(key, value) =>
              t != "" && IsSetting(t, key) && (key == Download ==> !IsSetting(t, Scope)) &&
              IsLower(t[if key == Scope then 6 else 9..], value)
            case Query(text) => t != "" && text == t && !IsSetting(t, Scope) && !IsSetting(t, Download)
  {
    hide Trim, Upper, Lower, IsLower;
    var t := Trim(line);
    UpperWord(t, "SCOPE ");
    UpperWord(t, "DOWNLOAD ");
    assert Keyword(Scope) + " " == "SCOPE " && Keyword(Download) + " " == "DOWNLOAD ";
    if "SCOPE " <= Upper(t) { UpperTail(t, 6); }
    if "DOWNLOAD " <= Upper(t) { UpperTail(t, 9); }
  }

  lemma UpperTail(t: string, k: nat)
    requires k <= |t|
    ensures IsLower(t[k..], Lower(Upper(t)[k..]))
  {
    assert Upper(t)[k..] == Upper(t[k..]);
    LowerIsLower(t[k..]);
  }

  function TrimAll(lines: seq<string>): (trimmed: seq<string>)
    ensures |trimmed| == |lines| && forall i :: 0 <= i < |lines| ==> trimmed[i] == Trim(lines[i])
  {
    seq(|lines|, i requires 0 <= i < |lines| => Trim(lines[i]))
  }

  lemma LineIsAdded(c: Collected, line: string, offset: nat, settings: seq<Setting>)
    requires MetadataIs(c.metadata, settings)
    ensures var r, t := AddLine(c, line, offset), Trim(line);
            Texts(r.fragments) == Texts(c.fragments) + QueryLines([t]) && MetadataIs(r.metadata, settings + Settings([t]))
  {
    hide Trim, Classify, MetadataIs, IsLower, IsSetting, LeadingBytes, ByteAt;
    var t := Trim(line);
    ClassifiedLine(line);
    OneLine(t);
    match Classify(line)
    case Blank =>
      BlankIsNoSetting();
      assert settings + [] == settings && Texts(c.fragments) + [] == Texts(c.fragments);
    case Setting(key, value) =>
      SettingLength(t, key);
      SetsOne(c.metadata, settings, key, t[if key == Scope then 6 else 9..], value);
      assert Texts(c.fragments) + [] == Texts(c.fragments);
    case Query(text) =>
      assert settings + [] == settings;
  }

  lemma SettingLength(t: string, key: Directive)
    requires IsSetting(t, key)
    ensures |t| >= if key == Scope then 6 else 9
  {
  }

  lemma BlankIsNoSetting()
    ensures !IsSetting("", Scope) && !IsSetting("", Download)
  {
  }

  lemma OneLine(t: string)
    ensures Settings([t]) ==
            if IsSetting(t, Scope) then [(Scope, t[6..])] else if IsSetting(t, Download) then [(Download, t[9..])] else []
    ensures QueryLines([t]) == if t == "" || IsSetting(t, Scope) || IsSetting(t, Download) then [] else [t]
  {
    hide IsSetting;
    assert [t][1..] == [] && Settings([]) == [] && QueryLines([]) == [];
  }

  lemma LinesFirst(t: string, rest: seq<string>)
    ensures Settings([t] + rest) == Settings([t]) + Settings(rest)
    ensures QueryLines([t] + rest) == QueryLines([t]) + QueryLines(rest)
  {
    hide IsSetting;
    OneLine(t);
    assert ([t] + rest)[0] == t && ([t] + rest)[1..] == rest;
  }

  lemma {:induction false} LinesAreAdded(c: Collected, lines: seq<string>, offset: nat, settings: seq<Setting>)
    requires MetadataIs(c.metadata, settings)
    ensures var r, trimmed := AddLines(c, lines, offset), TrimAll(lines);
            Texts(r.fragments) == Texts(c.fragments) + QueryLines(trimmed) &&
            MetadataIs(r.metadata, settings + Settings(trimmed))
    decreases |lines|
  {
    hide Trim, AddLine, MetadataIs, Settings, QueryLines, ByteAt;
    var trimmed := TrimAll(lines);
    if |lines| == 0 {
      assert trimmed == [];
      NoLines();
      assert settings + [] == settings && Texts(c.fragments) + [] == Texts(c.fragments);
    } else {
      var t, rest := Trim(lines[0]), lines[1..];
      var next := AddLine(c, lines[0], offset);
      assert trimmed == [t] + TrimAll(rest);
      LineIsAdded(c, lines[0], offset, settings);
      LinesAreAdded(next, rest, offset + ByteLen(lines[0]) + 1, settings + Settings([t]));
      LinesFirst(t, TrimAll(rest));
      Regroup(settings, Settings([t]), Settings(TrimAll(rest)));
      Regroup(Texts(c.fragments), QueryLines([t]), QueryLines(TrimAll(rest)));
    }
  }

  lemma NoLines()
    ensures Settings([]) == [] && QueryLines([]) == []
  {
  }

  lemma {:induction false} QueryLinesAreTrimmed(lines: seq<string>)
    ensures forall i :: 0 <= i < |QueryLines(TrimAll(lines))| ==> IsTrimmed(QueryLines(TrimAll(lines))[i])
    decreases |lines|
  {
    hide IsSetting, Trim;
    if |lines| > 0 {
      var t, rest := Trim(lines[0]), lines[1..];
      TrimTrims(lines[0]);
      assert TrimAll(lines) == [t] + TrimAll(rest);
      LinesFirst(t, TrimAll(rest));
      OneLine(t);
      QueryLinesAreTrimmed(rest);
    }
  }

  // ---------- directives at the end ----------

  /** The head without the white space at its end. */
  predicate TrimsEnd(text: string, head: string) {
    head <= text && AllSpace(text[|head|..]) && (head == "" || !IsSpace(head[|head| - 1]))
  }

  /** The text ends in the directive between single spaces or more, and its value, one word. */
  predicate EndsAt(t: string, i: nat, j: nat, key: Directive, value: string) {
    var needle := " " + Keyword(key) + " ";
    i + |needle| <= j <= |t| && SameWord(t[i..i + |needle|], needle) && AllSpace(t[i + |needle|..j]) &&
    value == t[j..] && IsWord(value)
  }

  ghost predicate EndsIn(t: string, head: string, key: Directive, value: string) {
    exists i: nat, j: nat :: EndsAt(t, i, j, key, value) && TrimsEnd(t[..i], head)
  }

  lemma NeedleIs(key: Directive)
    ensures Needle(key) == " " + Keyword(key) + " "
  {
  }

  lemma OccursIs(t: string, needle: string, i: nat)
    requires forall k :: 0 <= k < |needle| ==> !('a' <= needle[k] <= 'z')
    ensures OccursAt(needle, Upper(t), i) <==> i + |needle| <= |t| && SameWord(t[i..i + |needle|], needle)
  {
    if i + |needle| <= |t| {
      var part := t[i..i + |needle|];
      assert Upper(t)[i..i + |needle|] == Upper(part);
      UpperWord(part, needle);
    }
  }

  /** Nowhere behind the directive does one begin again, for it would have to end before the value. */
  lemma LastOfAll(t: string, i: nat, j: nat, key: Directive, value: string)
    requires EndsAt(t, i, j, key, value)
    ensures LastBefore(Needle(key), Upper(t), |t|) == Some(i)
  {
    hide LastBefore, IsSpace, Upper, SameWord, AllSpace, IsWord, OccursAt;
    var needle := Needle(key);
    var n := |needle|;
    NeedleIs(key);
    OccursIs(t, needle, i);
    forall k | i < k < |t| ensures !OccursAt(needle, Upper(t), k) {
      OccursIs(t, needle, k);
      if k + n <= |t| && SameWord(t[k..k + n], needle) {
        BeginsAgain(t, i, j, k, key, value);
      }
    }
  }

  lemma BeginsAgain(t: string, i: nat, j: nat, k: nat, key: Directive, value: string)
    requires EndsAt(t, i, j, key, value) && i < k && k + |Needle(key)| <= |t|
    ensures !SameWord(t[k..k + |Needle(key)|], Needle(key))
  {
    hide IsSpace, SameWord;
    NeedleIs(key);
    SpacesBehind(t, i, j, key, value);
    if SameWord(t[k..k + |Needle(key)|], Needle(key)) {
      NeedleEnds(t, k, key);
    }
  }

  /** From the end of the directive to its value all is white space, and in the value nothing is. */
  lemma SpacesBehind(t: string, i: nat, j: nat, key: Directive, value: string)
    requires EndsAt(t, i, j, key, value)
    ensures forall p :: i + |Needle(key)| - 1 <= p < j ==> IsSpace(t[p])
    ensures forall p :: j <= p < |t| ==> !IsSpace(t[p])
  {
    hide IsSpace;
    var n := |Needle(key)|;
    NeedleIs(key);
    NeedleEnds(t, i, key);
    forall p | i + n <= p < j ensures IsSpace(t[p]) {
      assert t[p] == t[i + n..j][p - i - n];
    }
    forall p | j <= p < |t| ensures !IsSpace(t[p]) {
      assert t[p] == value[p - j];
    }
  }

  lemma NeedleEnds(t: string, k: nat, key: Directive)
    requires k + |Needle(key)| <= |t| && SameWord(t[k..k + |Needle(key)|], Needle(key))
    ensures IsSpace(t[k + |Needle(key)| - 1]) && !IsSpace(t[k + |Needle(key)| - 2])
  {
    hide IsSpace;
    var needle, n := Needle(key), |Needle(key)|;
    SpaceIsSpace();
    var part := t[k..k + n];
    assert SameLetter(part[n - 1], ' ') && SameLetter(part[n - 2], needle[n - 2]);
    LetterIsNoSpace(part[n - 2], needle[n - 2]);
  }

  lemma SpaceIsSpace()
    ensures IsSpace(' ')
  {
  }

  lemma LetterIsNoSpace(c: char, d: char)
    requires SameLetter(c, d) && 'A' <= d <= 'Z'
    ensures !IsSpace(c)
  {
  }

  lemma TrimsPadding(text: string, j: nat)
    requires j <= |text| && AllSpace(text[..j]) && IsWord(text[j..])
    ensures Trim(text) == text[j..]
  {
    hide IsSpace;
    var kept, value := TrimStart(text), text[j..];
    assert forall p :: 0 <= p < j ==> text[..j][p] == text[p];
    assert forall p :: 0 <= p < |value| ==> !IsSpace(value[p]);
    assert value[0] == text[j];
    assert |kept| == |value|;
    assert kept == value;
    assert !IsSpace(kept[|kept| - 1]);
  }

  lemma EndIsStripped(t: string, i: nat, j: nat, key: Directive, value: string)
    requires EndsAt(t, i, j, key, value)
    ensures StripDirective(t, key) == Some(Stripped(TrimEnd(t[..i]), value, key))
  {
    hide LastBefore, IsSpace, Upper, Trim, TrimEnd, SameWord;
    var n := |Needle(key)|;
    NeedleIs(key);
    LastOfAll(t, i, j, key, value);
    var behind := t[i + n..];
    assert behind[..j - i - n] == t[i + n..j] && behind[j - i - n..] == t[j..];
    TrimsPadding(behind, j - i - n);
    assert !HasSpace(value);
  }

  lemma TrimEndTrims(text: string)
    ensures TrimsEnd(text, TrimEnd(text))
  {
    hide IsSpace;
    var head := TrimEnd(text);
    assert forall p :: 0 <= p < |text| - |head| ==> text[|head|..][p] == text[|head| + p];
  }

  /** Only the white space in front is left to trim when the text ends in something else. */
  lemma TrimIsTail(text: string)
    requires text != "" && !IsSpace(text[|text| - 1])
    ensures var j := |text| - |Trim(text)|; Trim(text) == text[j..] && AllSpace(text[..j]) && Trim(text) != ""
  {
    hide IsSpace;
    var kept := TrimStart(text);
  }

  lemma StrippedParts(t: string, key: Directive) returns (i: nat)
    requires StripDirective(t, key).Some?
    ensures var s, n := StripDirective(t, key).value, |Needle(key)|;
            i + n <= |t| && SameWord(t[i..i + n], Needle(key)) && s.prefix == TrimEnd(t[..i]) &&
            s.value == Trim(t[i + n..]) && s.value != "" && !HasSpace(s.value) && s.key == key
  {
    hide LastBefore, IsSpace, Upper, Trim, TrimEnd, SameWord, HasSpace;
    i := LastBefore(Needle(key), Upper(t), |t|).value;
    OccursIs(t, Needle(key), i);
  }

  lemma TrimmedTail(t: string, k: nat)
    requires IsTrimmed(t) && k <= |t| && Trim(t[k..]) != ""
    ensures var j := |t| - |Trim(t[k..])|; k <= j && Trim(t[k..]) == t[j..] && AllSpace(t[k..j])
  {
    hide IsSpace, Trim;
    var behind := t[k..];
    if behind == "" { TrimNothing(); }
    assert behind != "" ==> behind[|behind| - 1] == t[|t| - 1];
    TrimIsTail(behind);
    var j := |t| - |Trim(behind)|;
    assert t[k..j] == behind[..j - k] && behind[j - k..] == t[j..];
  }

  lemma StrippedIsEnd(t: string, key: Directive)
    requires IsTrimmed(t) && StripDirective(t, key).Some?
    ensures var s := StripDirective(t, key).value; s.key == key && EndsIn(t, s.prefix, key, s.value)
  {
    hide StripDirective, IsSpace, IsTrimmed, Trim, TrimEnd, TrimsEnd, SameWord, AllSpace;
    var s := StripDirective(t, key).value;
    var i := StrippedParts(t, key);
    NeedleIs(key);
    TrimmedTail(t, i + |Needle(key)|);
    var j := |t| - |s.value|;
    assert IsWord(s.value);
    assert EndsAt(t, i, j, key, s.value);
    TrimEndTrims(t[..i]);
  }

  lemma TrimNothing()
    ensures Trim("") == ""
  {
  }

  ghost predicate EndsInNone(t: string) {
    forall head, key, value :: !EndsIn(t, head, key, value)
  }

  /** The trailing directive of a trimmed text is the one it ends in, if it ends in one. */
  lemma TrailingIsEnd(t: string)
    requires IsTrimmed(t)
    ensures match StripTrailingDirective(t)
            case Some(s) => EndsIn(t, s.prefix, s.key, s.value)
            case None => EndsInNone(t)
  {
    hide StripDirective, SameWord, TrimsEnd, IsTrimmed, EndsIn;
    if StripDirective(t, Download).Some? { StrippedIsEnd(t, Download); }
    if StripDirective(t, Scope).Some? { StrippedIsEnd(t, Scope); }
    forall head, key: Directive, value | EndsIn(t, head, key, value) ensures StripTrailingDirective(t).Some? {
      EndingIsStripped(t, head, key, value);
      assert key == Download || key == Scope;
    }
  }

  lemma EndingIsStripped(t: string, head: string, key: Directive, value: string)
    requires EndsIn(t, head, key, value)
    ensures StripDirective(t, key).Some?
  {
    hide StripDirective, SameWord, TrimsEnd;
    var i: nat, j: nat :| EndsAt(t, i, j, key, value) && i <= |t| && TrimsEnd(t[..i], head);
    EndIsStripped(t, i, j, key, value);
  }

  /** From the last line on, directives are taken off the end, the emptied lines with them, until none is there. */
  ghost predicate TakesOff(lines: seq<string>, taken: seq<Setting>, kept: seq<string>)
    decreases |taken|
  {
    if |taken| == 0 then kept == lines && (|lines| > 0 ==> EndsInNone(lines[|lines| - 1]))
    else
      |lines| > 0 && exists head ::
        (EndsIn(lines[|lines| - 1], head, taken[0].0, taken[0].1) && TakesOff(WithLast(lines, head), taken[1..], kept))
  }

  /** The lines with this in place of the last one, which goes if this is empty. */
  function WithLast(lines: seq<string>, head: string): seq<string>
    requires |lines| > 0
  {
    if head == "" then lines[..|lines| - 1] else lines[..|lines| - 1] + [head]
  }

  function TakeOne(c: Collected, s: Stripped): Collected
    requires |c.fragments| > 0
  {
    var earlier, last := c.fragments[..|c.fragments| - 1], c.fragments[|c.fragments| - 1];
    Collected(if s.prefix == "" then earlier else earlier + [WithoutTail(last, s.prefix)], c.metadata[s.key := Lower(s.value)])
  }

  lemma OneIsTaken(c: Collected, s: Stripped, settings: seq<Setting>)
    requires |c.fragments| > 0 && MetadataIs(c.metadata, settings)
    requires EndsIn(c.fragments[|c.fragments| - 1].text, s.prefix, s.key, s.value)
    requires forall i :: 0 <= i < |c.fragments| ==> IsTrimmed(c.fragments[i].text)
    ensures var next := TakeOne(c, s);
            Texts(next.fragments) == WithLast(Texts(c.fragments), s.prefix) &&
            MetadataIs(next.metadata, settings + [(s.key, s.value)]) &&
            forall i :: 0 <= i < |next.fragments| ==> IsTrimmed(next.fragments[i].text)
  {
    hide EndsIn, MetadataIs, ByteAt, Lower, IsLower, IsTrimmed;
    LowerIsLower(s.value);
    SetsOne(c.metadata, settings, s.key, s.value, Lower(s.value));
    HeadIsTrimmed(c.fragments[|c.fragments| - 1].text, s.prefix, s.key, s.value);
  }

  lemma {:induction false} StripAllTakesOff(c: Collected, settings: seq<Setting>) returns (taken: seq<Setting>)
    requires MetadataIs(c.metadata, settings) && forall i :: 0 <= i < |c.fragments| ==> IsTrimmed(c.fragments[i].text)
    ensures var r := StripAll(c);
            TakesOff(Texts(c.fragments), taken, Texts(r.fragments)) && MetadataIs(r.metadata, settings + taken)
    decreases |c.fragments|, LastLength(c.fragments)
  {
    hide StripTrailingDirective, EndsIn, EndsInNone, MetadataIs, ByteAt, Lower, IsTrimmed, WithoutTail, WithLast;
    var lines := Texts(c.fragments);
    taken := [];
    assert settings + [] == settings;
    if |c.fragments| > 0 {
      var last := c.fragments[|c.fragments| - 1];
      TrailingIsEnd(last.text);
      var stripped := StripTrailingDirective(last.text);
      if stripped.Some? {
        var s := stripped.value;
        OneIsTaken(c, s, settings);
        LastIsShorter(c, s);
        var rest := StripAllTakesOff(TakeOne(c, s), settings + [(s.key, s.value)]);
        taken := [(s.key, s.value)] + rest;
        assert taken[1..] == rest;
        Regroup(settings, [(s.key, s.value)], rest);
      }
    }
  }

  lemma LastIsShorter(c: Collected, s: Stripped)
    requires |c.fragments| > 0 && |s.prefix| < |c.fragments[|c.fragments| - 1].text|
    ensures var next := TakeOne(c, s);
            |next.fragments| < |c.fragments| ||
            (|next.fragments| == |c.fragments| && LastLength(next.fragments) < LastLength(c.fragments))
  {
  }

  lemma HeadIsTrimmed(t: string, head: string, key: Directive, value: string)
    requires IsTrimmed(t) && EndsIn(t, head, key, value)
    ensures IsTrimmed(head)
  {
    hide IsSpace;
    var i: nat, j: nat :| EndsAt(t, i, j, key, value) && TrimsEnd(t[..i], head);
    if head != "" { assert head[0] == t[..i][0] == t[0]; }
  }

  // ---------- the whole rewriting ----------

  function Opening(kept: seq<string>): string {
    if |kept| > 0 && StartsWith(kept[0], "FROM ") then "SELECT * " else ""
  }

  lemma {:induction false} RenderedText(fragments: seq<Fragment>, n: nat)
    requires n <= |fragments|
    ensures RenderTo(fragments, n).text == Opening(Texts(fragments)) + Joined(Texts(fragments)[..n], " ")
  {
    hide StartsWith, Upper, ByteAt;
    var texts := Texts(fragments);
    if n == 0 {
      if |fragments| > 0 { UpperWord(texts[0], "FROM "); }
      assert texts[..0] == [] && "" + "SELECT * " == "SELECT * " && Opening(texts) + "" == Opening(texts);
    } else {
      RenderedText(fragments, n - 1);
      var before := texts[..n - 1];
      assert texts[..n] == before + [texts[n - 1]] && texts[..n][..n - 1] == before;
      if n == 1 {
        assert texts[..1] == [texts[0]] && before == [];
        assert Opening(texts) + "" == Opening(texts);
      } else {
        Regroup(Opening(texts), Joined(before, " "), " " + texts[n - 1]);
        Regroup(Opening(texts) + Joined(before, " "), " ", texts[n - 1]);
      }
    }
  }

  /**
   How a rewriting comes about: behind a leading EXPLAIN the text is cut into lines and these are trimmed;
   blank lines and lines that are directives go, and directives are taken off the end of the last line; what
   is kept is joined by single spaces, with `SELECT * ` in front if it begins with FROM. Each directive has the
   lower-cased value it was set to last.
   */
  ghost predicate ComesAbout(
    input: string, r: Rewriting, body: string, lines: seq<string>, trimmed: seq<string>, taken: seq<Setting>,
    kept: seq<string>)
  {
    Explains(input, r.explain, body) && IsCut(body, lines) && AllTrimmed(lines, trimmed) &&
    TakesOff(QueryLines(trimmed), taken, kept) &&
    r.output.text == Opening(kept) + Joined(kept, " ") && MetadataIs(r.metadata, Settings(trimmed) + taken)
  }

  lemma RewritingMeans(input: string)
    returns (body: string, lines: seq<string>, trimmed: seq<string>, taken: seq<Setting>, kept: seq<string>)
    ensures ComesAbout(input, Rewrite(input), body, lines, trimmed, taken, kept)
  {
    hide StripLeadingExplain, AddLines, StripAll, RenderTo, Explains, IsCut, Lines, Trim, TrimsTo, IsTrimmed;
    hide TakesOff, QueryLines, Settings, MetadataIs, Opening, Joined, ByteAt;
    var lead := StripLeadingExplain(input);
    LeadExplains(input);
    body, lines := lead.rest, Lines(lead.rest);
    LinesCut(body);
    trimmed := TrimAll(lines);
    forall i | 0 <= i < |lines| ensures TrimsTo(lines[i], trimmed[i]) { TrimTrims(lines[i]); }
    NothingSet();
    LinesAreAdded(Collected([], map[]), lines, lead.offset, []);
    var c := AddLines(Collected([], map[]), lines, lead.offset);
    assert Texts([]) + QueryLines(trimmed) == QueryLines(trimmed) && [] + Settings(trimmed) == Settings(trimmed);
    QueryLinesAreTrimmed(lines);
    forall i | 0 <= i < |c.fragments| ensures IsTrimmed(c.fragments[i].text) {
      assert c.fragments[i].text == Texts(c.fragments)[i];
    }
    taken := StripAllTakesOff(c, Settings(trimmed));
    var fragments := StripAll(c).fragments;
    kept := Texts(fragments);
    RenderedText(fragments, |fragments|);
    assert kept[..|fragments|] == kept;
  }

  lemma NothingSet()
    ensures MetadataIs(map[], [])
  {
  }
}
