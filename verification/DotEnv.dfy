/** The .env format: what a file's lines define, and that rendering pairs and parsing them back is the identity. */
module DotEnv {
  import opened Wrappers
  import opened Text

  type Pair = (string, string)

  predicate IsQuote(c: char) { c == '\"' || c == '\'' }

  /** strings.Split(s, "\n"). */
  function Split(s: string): (r: seq<string>)
    ensures |r| >= 1
  {
    if s == [] then [""]
    else
      var rest := Split(s[1..]);
      if s[0] == '\n' then [""] + rest else [[s[0]] + rest[0]] + rest[1..]
  }

  /** The index of the first such character, or -1. */
  function IndexByte(s: string, c: char): (i: int)
    ensures -1 <= i < |s|
    ensures i >= 0 ==> s[i] == c && c !in s[..i]
    ensures i < 0 ==> c !in s
  {
    if s == [] then -1
    else if s[0] == c then 0
    else
      var i := IndexByte(s[1..], c);
      assert s == [s[0]] + s[1..];
      if i < 0 then -1
      else
        assert s[..i + 1] == [s[0]] + s[1..][..i];
        i + 1
  }

  /** The pair a line asks to set; blank lines, comments and lines without a key ask for nothing. */
  function ParseLine(raw: string): Option<Pair> {
    var line := TrimSpace(raw);
    if line == "" || line[0] == '#' then None
    else
      var eq := IndexByte(line, '=');
      if eq <= 0 then None
      else Some((TrimSpace(line[..eq]), Trim(IsQuote, TrimSpace(line[eq + 1..]))))
  }

  function ParseLines(lines: seq<string>): seq<Pair>
    decreases |lines|
  {
    if lines == [] then []
    else
      var n := |lines| - 1;
      ParseLines(lines[..n]) + PairsIn(lines[n])
  }

  /** What one more line adds. */
  function PairsIn(raw: string): seq<Pair> { match ParseLine(raw) case None => [] case Some(p) => [p] }

  lemma ParseLinesSnoc(lines: seq<string>, n: nat)
    requires n < |lines|
    ensures ParseLines(lines[..n + 1]) == ParseLines(lines[..n]) + PairsIn(lines[n])
  {
    assert lines[..n + 1][..n] == lines[..n];
  }

  /** The pairs a file defines, in order, with repetitions. */
  function Parse(data: string): seq<Pair> { ParseLines(Split(data)) }

  /** Neither edge is a double or a single quote. */
  ghost predicate Unquoted(s: string) {
    s == "" || (s[0] != '\"' && s[0] != '\'' && s[|s| - 1] != '\"' && s[|s| - 1] != '\'')
  }

  // ----- what can reach Setenv

  lemma {:induction false} TrimRightKeepsHead(drop: char -> bool, s: string)
    requires s != [] && !drop(s[0])
    ensures TrimRight(drop, s) != [] && TrimRight(drop, s)[0] == s[0]
    decreases |s|
  {
    if drop(s[|s| - 1]) {
      TrimRightKeepsHead(drop, s[..|s| - 1]);
    }
  }

  /** Whatever the line, a key it defines is not empty, has clean edges, and holds no '='; its value has no edge quotes. */
  lemma KeysAreClean(raw: string)
    requires ParseLine(raw).Some?
    ensures var (key, val) := ParseLine(raw).value;
            && key != "" && Trimmed(IsSpace, key) && '=' !in key && key[0] != '#'
            && Unquoted(val)
            && (forall c | c in key || c in val :: c in raw)
  {
    var line := TrimSpace(raw);
    var a, b := TrimIsTrimmed(IsSpace, raw);
    var eq := IndexByte(line, '=');
    var head, tail := line[..eq], line[eq + 1..];
    assert head[0] == line[0];
    assert TrimLeft(IsSpace, head) == head;
    TrimRightKeepsHead(IsSpace, head);
    TrimRightPrefix(IsSpace, head);
    var a', b' := TrimIsTrimmed(IsSpace, tail);
    var a'', b'' := TrimIsTrimmed(IsQuote, TrimSpace(tail));
    var key, val := TrimSpace(head), Trim(IsQuote, TrimSpace(tail));
    forall c | c in key || c in val ensures c in raw {
      if c in key {
        assert c in head;
      } else {
        assert c in TrimSpace(tail);
        assert c in tail;
      }
      assert c in line;
    }
  }

  lemma {:induction false} SplitHoldsNoNewline(s: string)
    ensures forall i | 0 <= i < |Split(s)| :: '\n' !in Split(s)[i]
  {
    if s != [] {
      SplitHoldsNoNewline(s[1..]);
      var rest := Split(s[1..]);
      assert '\n' !in rest[0];
      assert forall i | 0 <= i < |rest| :: '\n' !in rest[i];
    }
  }

  /** What Setenv can be asked to set. */
  ghost predicate CleanPair(p: Pair) {
    && p.0 != "" && Trimmed(IsSpace, p.0) && '=' !in p.0 && p.0[0] != '#' && '\n' !in p.0
    && Unquoted(p.1) && '\n' !in p.1
  }

  lemma LineYieldsClean(raw: string)
    requires ParseLine(raw).Some? && '\n' !in raw
    ensures CleanPair(ParseLine(raw).value)
  {
    KeysAreClean(raw);
  }

  lemma {:induction false} LinesYieldCleanPairs(lines: seq<string>)
    requires forall i | 0 <= i < |lines| :: '\n' !in lines[i]
    ensures forall i | 0 <= i < |ParseLines(lines)| :: CleanPair(ParseLines(lines)[i])
    decreases |lines|
  {
    if lines != [] {
      var n := |lines| - 1;
      LinesYieldCleanPairs(lines[..n]);
      if ParseLine(lines[n]).Some? { LineYieldsClean(lines[n]); }
    }
  }

  /** Whatever the file holds, every pair it yields has a clean, non-empty, '='-free key. */
  lemma ParsedPairsAreClean(data: string)
    ensures forall i | 0 <= i < |Parse(data)| :: CleanPair(Parse(data)[i])
  {
    SplitHoldsNoNewline(data);
    LinesYieldCleanPairs(Split(data));
  }

  // ----- which lines define something

  /** The first '=' of a line is where it is in the line without its outer spaces. */
  lemma EqInPadded(a: string, line: string, b: string)
    requires All(IsSpace, a) && All(IsSpace, b) && '=' in line
    ensures var e := IndexByte(line, '=');
            && e >= 0 && IndexByte(a + line + b, '=') == |a| + e
            && (a + line + b)[..|a| + e] == a + line[..e]
            && (a + line + b)[|a| + e + 1..] == line[e + 1..] + b
  {
    var e := IndexByte(line, '=');
    SpacesHoldNoEq(a);
    FirstEq(a + line[..e], line[e + 1..] + b);
    Regroup(a, line, e, b);
  }

  lemma Regroup(a: string, line: string, e: nat, b: string)
    requires e < |line| && line[e] == '='
    ensures a + line + b == (a + line[..e]) + "=" + (line[e + 1..] + b)
  {
    assert line == line[..e] + "=" + line[e + 1..];
  }

  lemma NoEqInPadded(a: string, line: string, b: string)
    requires All(IsSpace, a) && All(IsSpace, b) && '=' !in line
    ensures IndexByte(a + line + b, '=') < 0
  {
    SpacesHoldNoEq(a);
    SpacesHoldNoEq(b);
  }

  lemma KeyOfTrimmed(a: string, line: string, e: nat)
    requires All(IsSpace, a) && e <= |line| && Trimmed(IsSpace, line) && (e == 0 || !IsSpace(line[0]))
    ensures TrimSpace(a + line[..e]) == TrimSpace(line[..e])
    ensures e == 0 ==> TrimSpace(line[..e]) == ""
    ensures e > 0 ==> TrimSpace(line[..e]) != "" && TrimSpace(line[..e])[0] == line[0]
  {
    assert a + line[..e] == a + line[..e] + "";
    TrimIgnoresPadding(IsSpace, a, line[..e], "");
    if e > 0 {
      assert TrimLeft(IsSpace, line[..e]) == line[..e];
      TrimRightKeepsHead(IsSpace, line[..e]);
    }
  }

  /** The n-th character is the line's first '=', and this is what stands before and after it. */
  ghost predicate Defines(raw: string, n: nat, p: Pair) {
    && n < |raw| && raw[n] == '=' && '=' !in raw[..n]
    && p.0 == TrimSpace(raw[..n]) && p.0 != "" && p.0[0] != '#'
    && p.1 == Trim(IsQuote, TrimSpace(raw[n + 1..]))
  }

  lemma OnlyFirstEq(raw: string, m: nat, p: Pair)
    requires Defines(raw, m, p)
    ensures m == IndexByte(raw, '=')
  {
    assert raw == raw[..m] + "=" + raw[m + 1..];
    FirstEq(raw[..m], raw[m + 1..]);
  }

  /**
   * Exactly which lines ask to set what: those whose first '=' has before it, spaces aside, a key
   * that is not empty and does not begin with '#'. The value is the rest of the line, without
   * outer spaces and then without outer quotes.
   */
  lemma LineDefinesIff(raw: string, p: Pair)
    ensures ParseLine(raw) == Some(p) <==> exists n: nat :: Defines(raw, n, p)
  {
    if n: nat :| Defines(raw, n, p) {
      OnlyFirstEq(raw, n, p);
      ParseAtFirstEq(raw);
    }
    if ParseLine(raw) == Some(p) {
      DefinesAtFirst(raw, p);
    }
  }

  lemma DefinesAtFirst(raw: string, p: Pair)
    requires ParseLine(raw) == Some(p)
    ensures IndexByte(raw, '=') >= 0 && Defines(raw, IndexByte(raw, '='), p)
  {
    ParseAtFirstEq(raw);
  }

  lemma ParseAtFirstEq(raw: string)
    ensures var n := IndexByte(raw, '=');
            && (n < 0 ==> ParseLine(raw) == None)
            && (n >= 0 ==> ParseLine(raw) == PairOf(TrimSpace(raw[..n]), Trim(IsQuote, TrimSpace(raw[n + 1..]))))
  {
    PartsOfTrimmed(raw);
    ParseTrimmed(raw);
  }

  /** What these parts of a line ask for. */
  function PairOf(key: string, val: string): Option<Pair> {
    if key == "" || key[0] == '#' then None else Some((key, val))
  }

  lemma ParseTrimmed(raw: string)
    ensures var line := TrimSpace(raw);
            var e := IndexByte(line, '=');
            && (e <= 0 ==> ParseLine(raw) == None)
            && (e > 0 && line[0] == '#' ==> ParseLine(raw) == None)
            && (e > 0 && line[0] != '#' ==>
                  ParseLine(raw) == Some((TrimSpace(line[..e]), Trim(IsQuote, TrimSpace(line[e + 1..])))))
  {}

  /** Splitting at the first '=' gives the same parts, outer spaces aside, before and after trimming. */
  lemma PartsOfTrimmed(raw: string)
    ensures var line := TrimSpace(raw);
            var n, e := IndexByte(raw, '='), IndexByte(line, '=');
            if e < 0 then n < 0
            else
              && n >= 0
              && TrimSpace(raw[..n]) == TrimSpace(line[..e])
              && TrimSpace(raw[n + 1..]) == TrimSpace(line[e + 1..])
              && (if e == 0 then TrimSpace(line[..e]) == ""
                  else TrimSpace(line[..e]) != "" && TrimSpace(line[..e])[0] == line[0])
  {
    var a, b := TrimIsTrimmed(IsSpace, raw);
    var line := TrimSpace(raw);
    if '=' in line {
      var e := IndexByte(line, '=');
      EqInPadded(a, line, b);
      KeyOfTrimmed(a, line, e);
      TrimSuffix(line[e + 1..], b);
    } else {
      NoEqInPadded(a, line, b);
    }
  }

  lemma TrimSuffix(s: string, b: string)
    requires All(IsSpace, b)
    ensures TrimSpace(s + b) == TrimSpace(s)
  {
    assert s + b == "" + s + b;
    TrimIgnoresPadding(IsSpace, "", s, b);
  }

  // ----- rendering

  datatype Quote = Bare | Double | Single

  datatype Line =
    | Entry(lead: string, key: string, mid: string, gap: string, quote: Quote, val: string, trail: string)
    | Blank(space: string)
    | Comment(lead: string, text: string)

  ghost predicate Spaces(s: string) { All(IsSpace, s) && '\n' !in s }

  ghost predicate ValidLine(l: Line) {
    match l
    case Entry(lead, key, mid, gap, quote, val, trail) =>
      && Spaces(lead) && Spaces(mid) && Spaces(gap) && Spaces(trail)
      && key != "" && Trimmed(IsSpace, key) && key[0] != '#' && '=' !in key && '\n' !in key
      && '\n' !in val && Unquoted(val)
      && (quote.Bare? ==> Trimmed(IsSpace, val))
    case Blank(space) => Spaces(space)
    case Comment(lead, text) => Spaces(lead) && '\n' !in text
  }

  function Quoted(quote: Quote, val: string): string {
    match quote
    case Bare => val
    case Double => "\"" + val + "\""
    case Single => "'" + val + "'"
  }

  function RenderLine(l: Line): string {
    match l
    case Entry(lead, key, mid, gap, quote, val, trail) =>
      lead + key + mid + "=" + gap + Quoted(quote, val) + trail
    case Blank(space) => space
    case Comment(lead, text) => lead + "#" + text
  }

  /** One line after the other, with a newline between them. */
  function Join(lines: seq<string>): string
    requires lines != []
  {
    if |lines| == 1 then lines[0] else lines[0] + "\n" + Join(lines[1..])
  }

  function RenderLines(lines: seq<Line>): (r: seq<string>)
    ensures |r| == |lines|
  {
    seq(|lines|, i requires 0 <= i < |lines| => RenderLine(lines[i]))
  }

  function Render(lines: seq<Line>): string
    requires lines != []
  {
    Join(RenderLines(lines))
  }

  function Entries(lines: seq<Line>): seq<Pair>
    decreases |lines|
  {
    if lines == [] then []
    else
      var l := lines[|lines| - 1];
      Entries(lines[..|lines| - 1]) + (if l.Entry? then [(l.key, l.val)] else [])
  }

  // ----- the round trip

  lemma {:induction false} SplitLine(line: string, rest: string)
    requires '\n' !in line
    ensures Split(line) == [line]
    ensures Split(line + "\n" + rest) == [line] + Split(rest)
  {
    if line == [] {
      assert line + "\n" + rest == "\n" + rest;
      assert ("\n" + rest)[1..] == rest;
    } else {
      SplitLine(line[1..], rest);
      assert (line + "\n" + rest)[1..] == line[1..] + "\n" + rest;
      assert [line[0]] + line[1..] == line;
    }
  }

  lemma {:induction false} SplitJoin(lines: seq<string>)
    requires lines != [] && forall i | 0 <= i < |lines| :: '\n' !in lines[i]
    ensures Split(Join(lines)) == lines
  {
    if |lines| == 1 {
      SplitLine(lines[0], "");
    } else {
      SplitJoin(lines[1..]);
      SplitLine(lines[0], Join(lines[1..]));
    }
  }

  lemma QuotesComeOff(quote: Quote, val: string)
    requires Unquoted(val)
    ensures Trim(IsQuote, Quoted(quote, val)) == val
  {
    match quote
    case Bare => TrimPadded(IsQuote, "", val, "");
                 assert "" + val + "" == val;
    case Double => TrimPadded(IsQuote, "\"", val, "\"");
    case Single => TrimPadded(IsQuote, "'", val, "'");
  }

  lemma FirstEq(head: string, tail: string)
    requires '=' !in head
    ensures IndexByte(head + "=" + tail, '=') == |head|
  {
    var s := head + "=" + tail;
    assert s[|head|] == '=';
    assert s[..|head|] == head;
    assert forall j | 0 <= j < |head| :: s[j] == head[j];
  }

  lemma SpacesHoldNoEq(s: string)
    requires All(IsSpace, s)
    ensures '=' !in s
  {}

  lemma ShownIsTrimmed(quote: Quote, val: string)
    requires quote.Bare? ==> Trimmed(IsSpace, val)
    ensures Trimmed(IsSpace, Quoted(quote, val))
  {}

  /** A line split at an '=' that is its first. */
  lemma ParseSplit(head: string, tail: string)
    requires '=' !in head && TrimSpace(head) != "" && TrimSpace(head)[0] != '#'
    ensures ParseLine(head + "=" + tail) == Some((TrimSpace(head), Trim(IsQuote, TrimSpace(tail))))
  {
    var raw := head + "=" + tail;
    FirstEq(head, tail);
    assert raw[..|head|] == head && raw[|head| + 1..] == tail;
    ParseAtFirstEq(raw);
  }

  lemma EntryParses(l: Line)
    requires ValidLine(l) && l.Entry?
    ensures ParseLine(RenderLine(l)) == Some((l.key, l.val))
  {
    var shown := Quoted(l.quote, l.val);
    ShownIsTrimmed(l.quote, l.val);
    QuotesComeOff(l.quote, l.val);
    PaddedParses(l.lead, l.key, l.mid, l.gap, shown, l.trail);
    assert RenderLine(l) == (l.lead + l.key + l.mid) + "=" + (l.gap + shown + l.trail);
  }

  lemma PaddedParses(lead: string, key: string, mid: string, gap: string, shown: string, trail: string)
    requires All(IsSpace, lead) && All(IsSpace, mid) && All(IsSpace, gap) && All(IsSpace, trail)
    requires key != "" && Trimmed(IsSpace, key) && '=' !in key && key[0] != '#' && Trimmed(IsSpace, shown)
    ensures ParseLine((lead + key + mid) + "=" + (gap + shown + trail)) == Some((key, Trim(IsQuote, shown)))
  {
    SpacesHoldNoEq(lead);
    SpacesHoldNoEq(mid);
    TrimPadded(IsSpace, lead, key, mid);
    TrimPadded(IsSpace, gap, shown, trail);
    ParseSplit(lead + key + mid, gap + shown + trail);
  }

  lemma OtherLinesParse(l: Line)
    requires ValidLine(l) && !l.Entry?
    ensures ParseLine(RenderLine(l)).None?
  {
    match l
    case Blank(space) =>
      TrimPadded(IsSpace, space, "", "");
      assert space + "" + "" == space;
    case Comment(lead, text) =>
      assert lead + "#" + text == lead + ("#" + text);
      TrimLeftPadded(IsSpace, lead, "#" + text);
      TrimRightKeepsHead(IsSpace, "#" + text);
  }

  lemma NoNewline(a: string, b: string)
    requires '\n' !in a && '\n' !in b
    ensures '\n' !in a + b
  {}

  lemma RenderedHoldsNoNewline(l: Line)
    requires ValidLine(l)
    ensures '\n' !in RenderLine(l)
  {
    match l
    case Entry(lead, key, mid, gap, quote, val, trail) =>
      NoNewline(lead, key);
      NoNewline(lead + key, mid);
      NoNewline(lead + key + mid, "=");
      NoNewline(lead + key + mid + "=", gap);
      NoNewline(lead + key + mid + "=" + gap, Quoted(quote, val));
      NoNewline(lead + key + mid + "=" + gap + Quoted(quote, val), trail);
    case Blank(space) =>
    case Comment(lead, text) =>
  }

  lemma {:induction false} LinesParse(lines: seq<Line>)
    requires forall i | 0 <= i < |lines| :: ValidLine(lines[i])
    ensures ParseLines(RenderLines(lines)) == Entries(lines)
    decreases |lines|
  {
    if lines != [] {
      var n := |lines| - 1;
      LinesParse(lines[..n]);
      assert RenderLines(lines)[..n] == RenderLines(lines[..n]);
      var l := lines[n];
      assert ValidLine(l);
      if l.Entry? { EntryParses(l); } else { OtherLinesParse(l); }
    }
  }

  /**
   * Parsing inverts rendering: any list of entries, bare or quoted and with any spacing around
   * their parts, with blank lines and comments between them, parses back to the same pairs in order.
   */
  lemma RoundTrip(lines: seq<Line>)
    requires lines != [] && forall i | 0 <= i < |lines| :: ValidLine(lines[i])
    ensures Parse(Render(lines)) == Entries(lines)
  {
    var raws := RenderLines(lines);
    forall i | 0 <= i < |raws| ensures '\n' !in raws[i] {
      assert ValidLine(lines[i]);
      RenderedHoldsNoNewline(lines[i]);
    }
    SplitJoin(raws);
    LinesParse(lines);
  }

  /**
   * For a valid key, writing a newline-free value bare on its line brings exactly that value
   * back if and only if it has no spaces and no quotes at its edges.
   */
  lemma BareValueIff(key: string, val: string)
    requires key != "" && Trimmed(IsSpace, key) && key[0] != '#' && '=' !in key && '\n' !in key && '\n' !in val
    ensures ParseLine(key + "=" + val) == Some((key, val)) <==> Trimmed(IsSpace, val) && Unquoted(val)
  {
    assert "" + key + "" == key;
    TrimPadded(IsSpace, "", key, "");
    ParseSplit(key, val);
    TrimsToItselfIff(val);
  }

  lemma TrimsToItselfIff(val: string)
    ensures Trim(IsQuote, TrimSpace(val)) == val <==> Trimmed(IsSpace, val) && Unquoted(val)
  {
    var a, b := TrimIsTrimmed(IsSpace, val);
    var a', b' := TrimIsTrimmed(IsQuote, TrimSpace(val));
    if Trim(IsQuote, TrimSpace(val)) == val {
      assert |val| <= |TrimSpace(val)| <= |val|;
    } else if Trimmed(IsSpace, val) && Trimmed(IsQuote, val) {
      assert "" + val + "" == val;
      TrimPadded(IsSpace, "", val, "");
      TrimPadded(IsQuote, "", val, "");
    }
  }
}
