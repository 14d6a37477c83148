/** The one-line pragma grammar of the compiler: tokenizer, spans and round trip.
    A `char` stands for one byte of the comment text. */
module Pragma {
  import opened Functions

  const V2_PREFIX := "//monolift:"
  const AT_PREFIX := "// @monolift"
  const OFFLOAD_PREFIX := "//monolift:offload"
  const LIFT := "//monolift:lift"

  datatype Problem =
    | V1Syntax | UnknownVerb(verb: string)
    | BadKey | EmptyKeySegment | MissingEquals(key: string) | DuplicateKey(key: string) | TrailingGarbage
    | EmptyValue | BadBareValue | NewlineInQuotes | UnterminatedEscape | InvalidEscape(c: char) | NonAscii | UnterminatedQuote

  /** `Ignored`: not a pragma line. A rejection carries the offsets of its span. */
  datatype Parsed = Ignored | Rejected(problem: Problem, start: nat, end: nat) | Accepted(options: map<string, string>)

  datatype Scan = Found(next: nat) | Bad(next: nat, problem: Problem)
  datatype Value = Val(value: string, next: nat) | BadValue(next: nat, problem: Problem)

  // ----- Character classes

  predicate IsLetter(c: char) {
    'a' <= c <= 'z' || 'A' <= c <= 'Z'
  }

  predicate IsDigit(c: char) {
    '0' <= c <= '9'
  }

  predicate IsIdentContinue(c: char) {
    IsLetter(c) || IsDigit(c) || c == '_' || c == '-'
  }

  predicate IsBareChar(c: char) {
    IsLetter(c) || IsDigit(c) || c == '_' || c == '-' || c == '.' || c == '/' || c == ':' || c == ','
  }

  predicate IsBlank(c: char) {
    c == ' ' || c == '\t'
  }

  predicate NotBlank(c: char) {
    !IsBlank(c)
  }

  predicate IsSeparator(c: char) {
    c == '.' || c == ':'
  }

  predicate AllIn(s: string, p: char -> bool) {
    forall i | 0 <= i < |s| :: p(s[i])
  }

  /** The end of the longest run of such characters. */
  function RunEnd(text: string, i: nat, p: char -> bool): (j: nat)
    requires i <= |text|
    ensures i <= j <= |text|
    ensures forall k | i <= k < j :: p(text[k])
    ensures j < |text| ==> !p(text[j])
    decreases |text| - i
  {
    if i < |text| && p(text[i]) then RunEnd(text, i + 1, p) else i
  }

  lemma RunEndIs(text: string, i: nat, p: char -> bool, j: nat)
    requires i <= j <= |text| && (forall k | i <= k < j :: p(text[k])) && (j < |text| ==> !p(text[j]))
    ensures RunEnd(text, i, p) == j
  {
    var r := RunEnd(text, i, p);
    assert r < |text| ==> !p(text[r]);
    assert forall k | i <= k < r :: p(text[k]);
  }

  /** The classes by character code: bare characters are the run from comma to colon, letters and underscore. */
  lemma CharacterClasses(c: char)
    ensures IsLetter(c) <==> 65 <= c as int <= 90 || 97 <= c as int <= 122
    ensures IsBareChar(c) <==> 44 <= c as int <= 58 || c as int == 95 || IsLetter(c)
    ensures IsIdentContinue(c) <==> 48 <= c as int <= 57 || c as int == 45 || c as int == 95 || IsLetter(c)
    ensures IsBlank(c) <==> c as int == 32 || c as int == 9
    ensures IsSeparator(c) <==> c as int == 46 || c as int == 58
  {
  }

  // ----- What the scanners do

  function ScanKey(text: string, i: nat): (r: Scan)
    requires i <= |text|
    ensures i <= r.next <= |text|
    decreases |text| - i
  {
    if i >= |text| || !IsLetter(text[i]) then Bad(i, BadKey)
    else
      var j := RunEnd(text, i + 1, IsIdentContinue);
      if j < |text| && IsSeparator(text[j]) then
        if j + 1 >= |text| then Bad(j + 1, EmptyKeySegment) else ScanKey(text, j + 1)
      else Found(j)
  }

  function Unescaped(c: char): Option<char> {
    if c == '"' then Some('"') else if c == '\\' then Some('\\')
    else if c == 'n' then Some('\n') else if c == 't' then Some('\t') else None
  }

  function ScanQuoted(text: string, i: nat, acc: string): (r: Value)
    requires i <= |text|
    ensures i <= r.next <= |text|
    decreases |text| - i
  {
    if i >= |text| then BadValue(|text|, UnterminatedQuote)
    else if text[i] == '"' then Val(acc, i + 1)
    else if text[i] == '\n' || text[i] == '\r' then BadValue(i, NewlineInQuotes)
    else if text[i] == '\\' then
      if i + 1 >= |text| then BadValue(i, UnterminatedEscape)
      else
        match Unescaped(text[i + 1])
        case None => BadValue(i + 1, InvalidEscape(text[i + 1]))
        case Some(c) => ScanQuoted(text, i + 2, acc + [c])
    else if text[i] as int >= 0x80 then BadValue(i, NonAscii)
    else ScanQuoted(text, i + 1, acc + [text[i]])
  }

  function ScanValue(text: string, start: nat): (r: Value)
    requires start <= |text|
    ensures start <= r.next <= |text|
  {
    if start >= |text| then BadValue(start, EmptyValue)
    else if text[start] == '"' then ScanQuoted(text, start + 1, "")
    else
      var i := RunEnd(text, start, IsBareChar);
      if i == start then BadValue(i, BadBareValue) else Val(text[start..i], i)
  }

  lemma ScanMoves(text: string, i: nat)
    requires i <= |text|
    ensures ScanKey(text, i).Found? ==> i < ScanKey(text, i).next
    ensures ScanValue(text, i).Val? ==> i < ScanValue(text, i).next
  {
    if ScanKey(text, i).Found? {
      var j := RunEnd(text, i + 1, IsIdentContinue);
      assert j <= ScanKey(text, i).next;
    }
  }

  /** The options from offset `i` on, added to those read before. */
  function ScanOptions(text: string, i: nat, options: map<string, string>): Parsed
    requires i <= |text|
    decreases |text| - i, 1
  {
    var k := RunEnd(text, i, IsBlank);
    if k >= |text| then Accepted(options)
    else
      match ScanKey(text, k)
      case Bad(n, problem) => Rejected(problem, k, n)
      case Found(n) => AfterKey(text, k, n, options)
  }

  /** What the scan makes of the text behind a key at `text[k..n]`. */
  function AfterKey(text: string, k: nat, n: nat, options: map<string, string>): Parsed
    requires k <= n <= |text|
    decreases |text| - k, 0
  {
    if n >= |text| || text[n] != '=' then Rejected(MissingEquals(text[k..n]), k, n)
    else
      match ScanValue(text, n + 1)
      case BadValue(m, problem) => Rejected(problem, n + 1, m)
      case Val(v, m) =>
        if text[k..n] in options then Rejected(DuplicateKey(text[k..n]), k, m)
        else if m < |text| && !IsBlank(text[m]) then Rejected(TrailingGarbage, m, m + 1)
        else ScanOptions(text, m, options[text[k..n] := v])
  }

  function ScanLine(text: string): Parsed {
    if AT_PREFIX <= text || OFFLOAD_PREFIX <= text then Rejected(V1Syntax, 0, |text|)
    else if !(V2_PREFIX <= text) then Ignored
    else
      var verbEnd := RunEnd(text, |V2_PREFIX|, NotBlank);
      if text[|V2_PREFIX|..verbEnd] != "lift" then Rejected(UnknownVerb(text[|V2_PREFIX|..verbEnd]), |V2_PREFIX|, verbEnd)
      else ScanOptions(text, verbEnd, map[])
  }

  // ----- The imperative loops

  method ParseKey(text: string, start: nat) returns (key: string, next: nat, problem: Option<Problem>)
    requires start <= |text|
    ensures start <= next <= |text|
    ensures ScanKey(text, start) == if problem.Some? then Bad(next, problem.value) else Found(next)
    ensures key == if problem.Some? then "" else text[start..next]
  {
    var i := start;
    while true
      invariant start <= i <= |text|
      invariant ScanKey(text, start) == ScanKey(text, i)
      decreases |text| - i
    {
      if i >= |text| || !IsLetter(text[i]) {
        return "", i, Some(BadKey);
      }
      ghost var segment := i;
      i := i + 1;
      while i < |text| && IsIdentContinue(text[i])
        invariant segment < i <= |text|
        invariant forall k | segment < k < i :: IsIdentContinue(text[k])
      {
        i := i + 1;
      }
      RunEndIs(text, segment + 1, IsIdentContinue, i);
      if i < |text| && (text[i] == '.' || text[i] == ':') {
        i := i + 1;
        if i >= |text| {
          return "", i, Some(EmptyKeySegment);
        }
        continue;
      }
      break;
    }
    return text[start..i], i, None;
  }

  method ParseValue(text: string, start: nat) returns (value: string, next: nat, problem: Option<Problem>)
    requires start <= |text|
    ensures start <= next <= |text|
    ensures ScanValue(text, start) == if problem.Some? then BadValue(next, problem.value) else Val(value, next)
  {
    if start >= |text| {
      return "", start, Some(EmptyValue);
    }
    if text[start] == '"' {
      var b := "";
      var i := start + 1;
      while i < |text|
        invariant start < i <= |text|
        invariant ScanQuoted(text, start + 1, "") == ScanQuoted(text, i, b)
      {
        if text[i] == '"' {
          return b, i + 1, None;
        } else if text[i] == '\n' || text[i] == '\r' {
          return "", i, Some(NewlineInQuotes);
        } else if text[i] == '\\' {
          if i + 1 >= |text| {
            return "", i, Some(UnterminatedEscape);
          }
          i := i + 1;
          match text[i]
          case '"' => b := b + "\"";
          case '\\' => b := b + "\\";
          case 'n' => b := b + "\n";
          case 't' => b := b + "\t";
          case _ => return "", i, Some(InvalidEscape(text[i]));
        } else {
          if text[i] as int >= 0x80 {
            return "", i, Some(NonAscii);
          }
          b := b + [text[i]];
        }
        i := i + 1;
      }
      return "", |text|, Some(UnterminatedQuote);
    }
    var i := start;
    while i < |text| && IsBareChar(text[i])
      invariant start <= i <= |text|
      invariant forall k | start <= k < i :: IsBareChar(text[k])
    {
      i := i + 1;
    }
    RunEndIs(text, start, IsBareChar, i);
    if i == start {
      return "", i, Some(BadBareValue);
    }
    return text[start..i], i, None;
  }

  method SkipBlanks(text: string, from: nat) returns (i: nat)
    requires from <= |text|
    ensures i == RunEnd(text, from, IsBlank)
  {
    i := from;
    while i < |text| && (text[i] == ' ' || text[i] == '\t')
      invariant from <= i <= |text|
      invariant forall k | from <= k < i :: IsBlank(text[k])
    {
      i := i + 1;
    }
    RunEndIs(text, from, IsBlank, i);
  }

  /** One turn of the option scan, unfolded once. */
  lemma OptionsUnfold(text: string, i: nat, options: map<string, string>)
    requires i <= |text|
    ensures var k := RunEnd(text, i, IsBlank);
            && (k >= |text| ==> ScanOptions(text, i, options) == Accepted(options))
            && (k < |text| && ScanKey(text, k).Bad? ==>
                  ScanOptions(text, i, options) == Rejected(ScanKey(text, k).problem, k, ScanKey(text, k).next))
            && (k < |text| && ScanKey(text, k).Found? ==>
                  ScanOptions(text, i, options) == AfterKey(text, k, ScanKey(text, k).next, options))
  {
    hide ScanKey, ScanValue, RunEnd;
  }

  /** The option loop of the line parser. */
  method ParseOptions(text: string, verbEnd: nat) returns (r: Parsed)
    requires verbEnd <= |text|
    ensures r == ScanOptions(text, verbEnd, map[])
  {
    hide ScanOptions, ScanKey, ScanValue, RunEnd;
    var i := verbEnd;
    var options: map<string, string> := map[];
    while true
      invariant verbEnd <= i <= |text|
      invariant ScanOptions(text, verbEnd, map[]) == ScanOptions(text, i, options)
      decreases |text| - i
    {
      OptionsUnfold(text, i, options);
      i := SkipBlanks(text, i);
      if i >= |text| {
        break;
      }
      var keyStart := i;
      ScanMoves(text, i);
      var key, afterKey, keyProblem := ParseKey(text, i);
      if keyProblem.Some? {
        return Rejected(keyProblem.value, keyStart, afterKey);
      }
      i := afterKey;
      if i >= |text| || text[i] != '=' {
        return Rejected(MissingEquals(key), keyStart, i);
      }
      i := i + 1;
      var valueStart := i;
      var value, afterValue, valueProblem := ParseValue(text, i);
      if valueProblem.Some? {
        return Rejected(valueProblem.value, valueStart, afterValue);
      }
      i := afterValue;
      if key in options {
        return Rejected(DuplicateKey(key), keyStart, i);
      }
      if i < |text| && text[i] != ' ' && text[i] != '\t' {
        return Rejected(TrailingGarbage, i, i + 1);
      }
      options := options[key := value];
    }
    return Accepted(options);
  }

  method ParseLine(text: string) returns (r: Parsed)
    ensures r == ScanLine(text)
  {
    hide ScanOptions;
    if AT_PREFIX <= text {
      return Rejected(V1Syntax, 0, |text|);
    }
    if OFFLOAD_PREFIX <= text {
      return Rejected(V1Syntax, 0, |text|);
    }
    if !(V2_PREFIX <= text) {
      return Ignored;
    }
    var verbStart := |V2_PREFIX|;
    var verbEnd := verbStart;
    while verbEnd < |text| && text[verbEnd] != ' ' && text[verbEnd] != '\t'
      invariant verbStart <= verbEnd <= |text|
      invariant forall k | verbStart <= k < verbEnd :: NotBlank(text[k])
    {
      verbEnd := verbEnd + 1;
    }
    RunEndIs(text, verbStart, NotBlank, verbEnd);
    var verb := text[verbStart..verbEnd];
    if verb != "lift" {
      return Rejected(UnknownVerb(verb), verbStart, verbEnd);
    }
    r := ParseOptions(text, verbEnd);
  }

  // ----- The grammar, stated without the scanners

  /** The key occupies `text[i..j]`: segments that start with a letter, joined by single separators. */
  predicate KeyAt(text: string, i: nat, j: nat) {
    && i < j <= |text| && IsLetter(text[i]) && !IsSeparator(text[j - 1])
    && forall k | i < k < j ::
         (IsIdentContinue(text[k]) || IsSeparator(text[k])) && (IsSeparator(text[k - 1]) ==> IsLetter(text[k]))
  }

  predicate ValidKey(key: string) {
    KeyAt(key, 0, |key|)
  }

  /** One character of a quoted value: as it stands, or behind a backslash. */
  datatype Piece = Raw(c: char) | Esc(c: char) {
    predicate Valid() {
      match this
      case Raw(c) => c != '"' && c != '\\' && c != '\n' && c != '\r' && (c as int) < 0x80
      case Esc(c) => c == '"' || c == '\\' || c == 'n' || c == 't'
    }

    function Text(): string {
      match this
      case Raw(c) => [c]
      case Esc(c) => ['\\', c]
    }

    function Value(): char {
      match this
      case Raw(c) => c
      case Esc(c) => if c == 'n' then '\n' else if c == 't' then '\t' else c
    }
  }

  predicate ValidPieces(ps: seq<Piece>) {
    forall i | 0 <= i < |ps| :: ps[i].Valid()
  }

  function PiecesText(ps: seq<Piece>): string {
    if ps == [] then "" else ps[0].Text() + PiecesText(ps[1..])
  }

  function PiecesValue(ps: seq<Piece>): string {
    if ps == [] then "" else [ps[0].Value()] + PiecesValue(ps[1..])
  }

  datatype Token = Bare(s: string) | Quoted(pieces: seq<Piece>) {
    predicate Valid() {
      match this
      case Bare(s) => s != "" && AllIn(s, IsBareChar)
      case Quoted(ps) => ValidPieces(ps)
    }

    function Text(): string {
      match this
      case Bare(s) => s
      case Quoted(ps) => "\"" + PiecesText(ps) + "\""
    }

    function Value(): string {
      match this
      case Bare(s) => s
      case Quoted(ps) => PiecesValue(ps)
    }
  }

  datatype Item = Item(sep: string, key: string, token: Token) {
    predicate Valid() {
      sep != "" && AllIn(sep, IsBlank) && ValidKey(key) && token.Valid()
    }

    function Text(): string {
      sep + key + "=" + token.Text()
    }
  }

  predicate ValidItems(items: seq<Item>) {
    forall i | 0 <= i < |items| :: items[i].Valid()
  }

  function Render(items: seq<Item>): string {
    if items == [] then "" else items[0].Text() + Render(items[1..])
  }

  function Collect(options: map<string, string>, items: seq<Item>): map<string, string>
    decreases |items|
  {
    if items == [] then options else Collect(options[items[0].key := items[0].token.Value()], items[1..])
  }

  ghost predicate DistinctKeys(items: seq<Item>) {
    forall i, j | 0 <= i < j < |items| :: items[i].key != items[j].key
  }

  // ----- Keys

  lemma KeyIsLocal(text: string, i: nat, j: nat)
    requires i <= j <= |text|
    ensures KeyAt(text, i, j) <==> ValidKey(text[i..j])
  {
    var key := text[i..j];
    if KeyAt(text, i, j) {
      assert forall k | 0 <= k < |key| :: key[k] == text[i + k];
    }
    if ValidKey(key) {
      forall k | i < k < j
        ensures (IsIdentContinue(text[k]) || IsSeparator(text[k])) && (IsSeparator(text[k - 1]) ==> IsLetter(text[k]))
      {
        assert key[k - i] == text[k] && key[k - i - 1] == text[k - 1];
      }
    }
  }

  predicate EndsKey(text: string, j: nat) {
    j < |text| ==> !IsIdentContinue(text[j]) && !IsSeparator(text[j])
  }

  /** The key scanner finds exactly the longest valid key. */
  lemma {:induction false} KeyScans(text: string, i: nat, j: nat)
    requires KeyAt(text, i, j) && EndsKey(text, j)
    ensures ScanKey(text, i) == Found(j)
    decreases j - i
  {
    var e := RunEnd(text, i + 1, IsIdentContinue);
    if e < j {
      assert IsSeparator(text[e]) && e + 1 < j;
      assert IsLetter(text[e + 1]) by { assert IsSeparator(text[e + 1 - 1]); }
      KeyScans(text, e + 1, j);
    }
  }

  lemma KeyStep(text: string, i: nat)
    requires i <= |text| && ScanKey(text, i).Found?
    ensures i < |text| && IsLetter(text[i])
    ensures var e := RunEnd(text, i + 1, IsIdentContinue);
            if e < |text| && IsSeparator(text[e]) then e + 1 < |text| && ScanKey(text, i) == ScanKey(text, e + 1)
            else ScanKey(text, i) == Found(e)
  {
    hide RunEnd;
  }

  lemma SegmentIsKey(text: string, i: nat, e: nat)
    requires i < e <= |text| && IsLetter(text[i]) && forall k | i < k < e :: IsIdentContinue(text[k])
    ensures KeyAt(text, i, e)
  {
    assert e - 1 == i || IsIdentContinue(text[e - 1]);
    forall k | i <= k < e
      ensures !IsSeparator(text[k])
    {
      assert k == i || IsIdentContinue(text[k]);
    }
  }

  lemma SegmentJoins(text: string, i: nat, e: nat, j: nat)
    requires KeyAt(text, i, e) && KeyAt(text, e + 1, j) && IsSeparator(text[e])
    ensures KeyAt(text, i, j)
  {
    hide IsLetter;
    forall k | i < k < j
      ensures (IsIdentContinue(text[k]) || IsSeparator(text[k])) && (IsSeparator(text[k - 1]) ==> IsLetter(text[k]))
    {
      if k == e + 1 {
        assert IsLetter(text[k]);
      }
    }
  }

  lemma {:induction false} ScannedIsKey(text: string, i: nat)
    requires i <= |text| && ScanKey(text, i).Found?
    ensures KeyAt(text, i, ScanKey(text, i).next) && EndsKey(text, ScanKey(text, i).next)
    decreases |text| - i
  {
    hide ScanKey, KeyAt, RunEnd, IsIdentContinue, IsLetter, IsSeparator;
    KeyStep(text, i);
    var e := RunEnd(text, i + 1, IsIdentContinue);
    SegmentIsKey(text, i, e);
    if e < |text| && IsSeparator(text[e]) {
      ScannedIsKey(text, e + 1);
      SegmentJoins(text, i, e, ScanKey(text, i).next);
    }
  }

  // ----- Texts inside texts

  /** `t` stands in `text` at offset `i`. */
  ghost predicate At(text: string, i: nat, t: string) {
    i + |t| <= |text| && forall k | 0 <= k < |t| :: text[i + k] == t[k]
  }

  lemma AtJoin(text: string, i: nat, a: string, b: string)
    ensures At(text, i, a + b) <==> At(text, i, a) && At(text, i + |a|, b)
  {
    if At(text, i, a + b) {
      forall k | 0 <= k < |a|
        ensures text[i + k] == a[k]
      {
        assert (a + b)[k] == a[k];
      }
      forall k | 0 <= k < |b|
        ensures text[i + |a| + k] == b[k]
      {
        assert (a + b)[|a| + k] == b[k];
      }
    }
    if At(text, i, a) && At(text, i + |a|, b) {
      forall k | 0 <= k < |a + b|
        ensures text[i + k] == (a + b)[k]
      {
        if k >= |a| {
          assert text[i + |a| + (k - |a|)] == b[k - |a|];
        }
      }
    }
  }

  lemma AtSlice(text: string, i: nat, j: nat)
    requires i <= j <= |text|
    ensures At(text, i, text[i..j])
  {
  }

  lemma AtIsSlice(text: string, i: nat, t: string)
    requires At(text, i, t)
    ensures i + |t| <= |text| && text[i..i + |t|] == t
  {
  }

  lemma AtWhole(text: string, t: string)
    requires |text| == |t|
    ensures At(text, 0, t) <==> text == t
  {
    if At(text, 0, t) {
      assert forall k | 0 <= k < |t| :: text[0 + k] == t[k];
    }
  }

  lemma AtChar(text: string, i: nat, c: char)
    ensures At(text, i, [c]) <==> i < |text| && text[i] == c
  {
    if At(text, i, [c]) {
      assert text[i + 0] == [c][0];
    }
  }

  // ----- Values

  /** One piece ahead: the quoted scan takes it and goes on behind it. */
  lemma PieceScans(text: string, i: nat, p: Piece, acc: string)
    requires p.Valid() && At(text, i, p.Text()) && i + |p.Text()| < |text|
    ensures ScanQuoted(text, i, acc) == ScanQuoted(text, i + |p.Text()|, acc + [p.Value()])
  {
    match p
    case Raw(c) =>
      AtChar(text, i, c);
    case Esc(c) =>
      assert p.Text() == ['\\'] + [c];
      AtJoin(text, i, ['\\'], [c]);
      AtChar(text, i, '\\');
      AtChar(text, i + 1, c);
  }

  lemma QuoteEnds(text: string, i: nat, acc: string)
    requires i < |text| && text[i] == '"'
    ensures ScanQuoted(text, i, acc) == Val(acc, i + 1)
  {
  }

  lemma {:induction false} QuotedScans(text: string, i: nat, ps: seq<Piece>, acc: string)
    requires ValidPieces(ps) && At(text, i, PiecesText(ps)) && At(text, i + |PiecesText(ps)|, "\"")
    ensures ScanQuoted(text, i, acc) == Val(acc + PiecesValue(ps), i + |PiecesText(ps)| + 1)
    decreases |ps|
  {
    hide At, Piece.Text, Piece.Value, Piece.Valid, ScanQuoted;
    AtChar(text, i + |PiecesText(ps)|, '"');
    if ps == [] {
      QuoteEnds(text, i, acc);
      assert acc + "" == acc;
    } else {
      var head, rest := ps[0].Text(), PiecesText(ps[1..]);
      AtJoin(text, i, head, rest);
      PieceScans(text, i, ps[0], acc);
      QuotedScans(text, i + |head|, ps[1..], acc + [ps[0].Value()]);
      assert acc + [ps[0].Value()] + PiecesValue(ps[1..]) == acc + PiecesValue(ps);
    }
  }

  lemma PieceScanned(text: string, i: nat, acc: string) returns (p: Piece)
    requires i < |text| && text[i] != '"' && ScanQuoted(text, i, acc).Val?
    ensures p.Valid() && At(text, i, p.Text()) && i + |p.Text()| <= |text|
    ensures ScanQuoted(text, i, acc) == ScanQuoted(text, i + |p.Text()|, acc + [p.Value()])
  {
    p := if text[i] == '\\' then Esc(text[i + 1]) else Raw(text[i]);
  }

  lemma {:induction false} ScannedIsQuoted(text: string, i: nat, acc: string) returns (ps: seq<Piece>)
    requires i <= |text| && ScanQuoted(text, i, acc).Val?
    ensures ValidPieces(ps) && At(text, i, PiecesText(ps)) && At(text, i + |PiecesText(ps)|, "\"")
    ensures ScanQuoted(text, i, acc) == Val(acc + PiecesValue(ps), i + |PiecesText(ps)| + 1)
    decreases |text| - i
  {
    if text[i] == '"' {
      ps := [];
      AtChar(text, i, '"');
      assert acc + "" == acc;
    } else {
      var p := PieceScanned(text, i, acc);
      hide ScanQuoted, At;
      var rest := ScannedIsQuoted(text, i + |p.Text()|, acc + [p.Value()]);
      ps := [p] + rest;
      assert ps[1..] == rest;
      AtJoin(text, i, p.Text(), PiecesText(rest));
      assert acc + [p.Value()] + PiecesValue(rest) == acc + PiecesValue(ps);
    }
  }

  predicate EndsToken(text: string, token: Token, j: nat) {
    token.Bare? && j < |text| ==> !IsBareChar(text[j])
  }

  lemma BareScans(text: string, i: nat, s: string)
    requires s != "" && AllIn(s, IsBareChar) && At(text, i, s) && EndsToken(text, Bare(s), i + |s|)
    ensures ScanValue(text, i) == Val(s, i + |s|)
  {
    assert text[i + 0] == s[0];
    forall k | i <= k < i + |s|
      ensures IsBareChar(text[k])
    {
      assert text[i + (k - i)] == s[k - i];
    }
    RunEndIs(text, i, IsBareChar, i + |s|);
    AtIsSlice(text, i, s);
  }

  lemma TokenScans(text: string, i: nat, token: Token)
    requires token.Valid() && At(text, i, token.Text()) && EndsToken(text, token, i + |token.Text()|)
    ensures ScanValue(text, i) == Val(token.Value(), i + |token.Text()|)
  {
    match token
    case Bare(s) => BareScans(text, i, s);
    case Quoted(ps) =>
      var body := PiecesText(ps);
      AtJoin(text, i, "\"" + body, "\"");
      AtJoin(text, i, "\"", body);
      AtChar(text, i, '"');
      QuotedScans(text, i + 1, ps, "");
      hide PiecesText, PiecesValue, ScanQuoted, At;
      assert "" + PiecesValue(ps) == PiecesValue(ps);
  }

  lemma ScannedIsBare(text: string, i: nat)
    requires i <= |text| && ScanValue(text, i).Val? && text[i] != '"'
    ensures var r := ScanValue(text, i);
            && Bare(r.value).Valid() && At(text, i, r.value) && EndsToken(text, Bare(r.value), i + |r.value|)
            && r.next == i + |r.value|
  {
    AtSlice(text, i, ScanValue(text, i).next);
  }

  lemma ValueStarts(text: string, i: nat)
    requires i <= |text| && ScanValue(text, i).Val?
    ensures i < |text| && (text[i] == '"' ==> ScanValue(text, i) == ScanQuoted(text, i + 1, ""))
  {
    hide ScanQuoted;
  }

  lemma QuotedIsToken(text: string, i: nat, ps: seq<Piece>)
    requires ValidPieces(ps) && i < |text| && text[i] == '"'
    requires At(text, i + 1, PiecesText(ps)) && At(text, i + 1 + |PiecesText(ps)|, "\"")
    ensures Quoted(ps).Valid() && At(text, i, Quoted(ps).Text()) && |Quoted(ps).Text()| == |PiecesText(ps)| + 2
  {
    hide PiecesText, At;
    var body := PiecesText(ps);
    AtChar(text, i, '"');
    AtJoin(text, i, "\"", body);
    AtJoin(text, i, "\"" + body, "\"");
  }

  lemma ScannedIsToken(text: string, i: nat) returns (token: Token)
    requires i <= |text| && ScanValue(text, i).Val?
    ensures token.Valid() && At(text, i, token.Text()) && EndsToken(text, token, i + |token.Text()|)
    ensures ScanValue(text, i) == Val(token.Value(), i + |token.Text()|)
  {
    hide PiecesText, PiecesValue, ScanQuoted, ScanValue, At, IsBareChar, AllIn, ValidPieces;
    ValueStarts(text, i);
    if text[i] == '"' {
      var ps := ScannedIsQuoted(text, i + 1, "");
      token := Quoted(ps);
      QuotedIsToken(text, i, ps);
      assert "" + PiecesValue(ps) == PiecesValue(ps);
    } else {
      ScannedIsBare(text, i);
      token := Bare(ScanValue(text, i).value);
    }
  }

  // ----- Items

  lemma ItemParts(text: string, i: nat, item: Item)
    ensures var k := i + |item.sep|; var n := k + |item.key|;
            At(text, i, item.Text()) <==>
              At(text, i, item.sep) && At(text, k, item.key) && At(text, n, "=") && At(text, n + 1, item.token.Text())
  {
    hide At;
    var k := i + |item.sep|;
    var n := k + |item.key|;
    AtJoin(text, i, item.sep + item.key + "=", item.token.Text());
    AtJoin(text, i, item.sep + item.key, "=");
    AtJoin(text, i, item.sep, item.key);
  }

  /** One turn of the option scan. */
  lemma OptionsStep(text: string, i: nat, options: map<string, string>, k: nat, n: nat, v: string, m: nat)
    requires i <= |text| && RunEnd(text, i, IsBlank) == k < |text| && ScanKey(text, k) == Found(n)
    requires n < |text| && text[n] == '=' && ScanValue(text, n + 1) == Val(v, m)
    requires text[k..n] !in options && (m < |text| ==> IsBlank(text[m]))
    ensures ScanOptions(text, i, options) == ScanOptions(text, m, options[text[k..n] := v])
  {
    hide ScanKey, ScanValue, RunEnd;
  }

  lemma BlankRun(text: string, i: nat, sep: string)
    requires At(text, i, sep) && AllIn(sep, IsBlank) && (i + |sep| < |text| ==> !IsBlank(text[i + |sep|]))
    ensures RunEnd(text, i, IsBlank) == i + |sep|
  {
    forall j | i <= j < i + |sep|
      ensures IsBlank(text[j])
    {
      assert text[i + (j - i)] == sep[j - i];
    }
    RunEndIs(text, i, IsBlank, i + |sep|);
  }

  lemma KeyFound(text: string, k: nat, key: string)
    requires ValidKey(key) && At(text, k, key) && At(text, k + |key|, "=")
    ensures k < |text| && !IsBlank(text[k]) && ScanKey(text, k) == Found(k + |key|) && text[k..k + |key|] == key
    ensures k + |key| < |text| && text[k + |key|] == '='
  {
    AtIsSlice(text, k, key);
    AtChar(text, k + |key|, '=');
    KeyIsLocal(text, k, k + |key|);
    KeyScans(text, k, k + |key|);
  }

  /** One item ahead: the scan takes it and goes on behind it. */
  lemma ItemScans(text: string, i: nat, item: Item, options: map<string, string>)
    requires item.Valid() && At(text, i, item.Text()) && item.key !in options
    requires i + |item.Text()| < |text| ==> IsBlank(text[i + |item.Text()|])
    ensures i + |item.Text()| <= |text|
    ensures ScanOptions(text, i, options) == ScanOptions(text, i + |item.Text()|, options[item.key := item.token.Value()])
  {
    hide *;
    AtIsSlice(text, i, item.Text());
    ItemParts(text, i, item);
    PartsAreValid(item);
    var k := i + |item.sep|;
    var n := k + |item.key|;
    var m := i + |item.Text()|;
    ItemLength(item);
    KeyFound(text, k, item.key);
    BlankRun(text, i, item.sep);
    TokenFollowed(text, item.token, m);
    TokenScans(text, n + 1, item.token);
    OptionsStep(text, i, options, k, n, item.token.Value(), m);
  }

  lemma PartsAreValid(item: Item)
    requires item.Valid()
    ensures item.sep != "" && AllIn(item.sep, IsBlank) && ValidKey(item.key) && item.token.Valid()
  {
  }

  lemma ItemLength(item: Item)
    ensures |item.Text()| == |item.sep| + |item.key| + 1 + |item.token.Text()|
  {
    hide Token.Text;
  }

  lemma TokenFollowed(text: string, token: Token, m: nat)
    requires m < |text| ==> IsBlank(text[m])
    ensures EndsToken(text, token, m)
  {
  }

  /** A scanned item: its parts, found by the scanners. */
  lemma ScannedIsItem(text: string, i: nat, options: map<string, string>) returns (item: Item)
    requires i < |text| && IsBlank(text[i]) && RunEnd(text, i, IsBlank) < |text| && ScanOptions(text, i, options).Accepted?
    ensures item.Valid() && item.key !in options && At(text, i, item.Text()) && i + |item.Text()| <= |text|
    ensures i + |item.Text()| < |text| ==> IsBlank(text[i + |item.Text()|])
    ensures ScanOptions(text, i, options) == ScanOptions(text, i + |item.Text()|, options[item.key := item.token.Value()])
  {
    hide *;
    var k, n, v, m := AcceptedStep(text, i, options);
    item := ItemTaken(text, i, k, n, v, m);
  }

  /** The parts the scanners found make an item. */
  lemma ItemTaken(text: string, i: nat, k: nat, n: nat, v: string, m: nat) returns (item: Item)
    requires i < |text| && IsBlank(text[i]) && k == RunEnd(text, i, IsBlank) < |text| && ScanKey(text, k) == Found(n)
    requires n < |text| && text[n] == '=' && ScanValue(text, n + 1) == Val(v, m)
    ensures i < k && k < n && item.Valid() && item.key == text[k..n] && item.token.Value() == v
    ensures At(text, i, item.Text()) && i + |item.Text()| == m
  {
    hide *;
    ScanMoves(text, k);
    ScannedIsKey(text, k);
    KeyIsLocal(text, k, n);
    var token := ScannedIsToken(text, n + 1);
    SepIsBlank(text, i, k);
    item := Item(text[i..k], text[k..n], token);
    Assembled(text, i, k, n, token);
    ItemIsValid(item);
  }

  lemma ItemIsValid(item: Item)
    requires item.sep != "" && AllIn(item.sep, IsBlank) && ValidKey(item.key) && item.token.Valid()
    ensures item.Valid()
  {
  }

  lemma SepIsBlank(text: string, i: nat, k: nat)
    requires i < |text| && IsBlank(text[i]) && k == RunEnd(text, i, IsBlank)
    ensures i < k <= |text| && AllIn(text[i..k], IsBlank)
  {
  }

  lemma Assembled(text: string, i: nat, k: nat, n: nat, token: Token)
    requires i <= k <= n < |text| && text[n] == '=' && At(text, n + 1, token.Text())
    ensures var item := Item(text[i..k], text[k..n], token);
            At(text, i, item.Text()) && i + |item.Text()| == n + 1 + |token.Text()|
  {
    AtSlice(text, i, k);
    AtSlice(text, k, n);
    AtChar(text, n, '=');
    ItemParts(text, i, Item(text[i..k], text[k..n], token));
  }

  lemma AcceptedStep(text: string, i: nat, options: map<string, string>) returns (k: nat, n: nat, v: string, m: nat)
    requires i < |text| && RunEnd(text, i, IsBlank) < |text| && ScanOptions(text, i, options).Accepted?
    ensures k == RunEnd(text, i, IsBlank) && ScanKey(text, k) == Found(n)
    ensures n < |text| && text[n] == '=' && ScanValue(text, n + 1) == Val(v, m) && m <= |text|
    ensures text[k..n] !in options && (m < |text| ==> IsBlank(text[m]))
    ensures ScanOptions(text, i, options) == ScanOptions(text, m, options[text[k..n] := v])
  {
    hide ScanKey, ScanValue, RunEnd;
    k := RunEnd(text, i, IsBlank);
    n := ScanKey(text, k).next;
    v, m := ScanValue(text, n + 1).value, ScanValue(text, n + 1).next;
  }

  // ----- Whole lines

  /** The rest of the text is a rendering of these items and trailing blanks. */
  ghost predicate Renders(text: string, i: nat, items: seq<Item>, trail: string) {
    && ValidItems(items) && DistinctKeys(items) && AllIn(trail, IsBlank)
    && At(text, i, Render(items) + trail) && i + |Render(items) + trail| == |text|
  }

  ghost predicate Fresh(items: seq<Item>, options: map<string, string>) {
    forall j | 0 <= j < |items| :: items[j].key !in options
  }

  lemma RendersNothing(text: string, i: nat, trail: string, options: map<string, string>)
    requires Renders(text, i, [], trail)
    ensures ScanOptions(text, i, options) == Accepted(Collect(options, []))
  {
    assert Render([]) + trail == trail;
    BlankRun(text, i, trail);
  }

  lemma RenderFirst(items: seq<Item>, trail: string)
    requires items != []
    ensures Render(items) + trail == items[0].Text() + (Render(items[1..]) + trail)
  {
    hide Item.Text;
    assert items[0].Text() + (Render(items[1..]) + trail) == items[0].Text() + Render(items[1..]) + trail;
  }

  lemma TailIsValid(items: seq<Item>)
    requires items != [] && ValidItems(items) && DistinctKeys(items)
    ensures items[0].Valid() && ValidItems(items[1..]) && DistinctKeys(items[1..])
  {
    hide Item.Valid;
  }

  lemma RendersFirst(text: string, i: nat, items: seq<Item>, trail: string)
    requires Renders(text, i, items, trail) && items != []
    ensures var m := i + |items[0].Text()|;
            && items[0].Valid() && At(text, i, items[0].Text()) && (m < |text| ==> IsBlank(text[m]))
            && Renders(text, m, items[1..], trail)
  {
    hide Item.Valid, Item.Text, AllIn, At, Render, ValidItems, DistinctKeys, IsBlank;
    var m := i + |items[0].Text()|;
    var more := Render(items[1..]) + trail;
    TailIsValid(items);
    RenderFirst(items, trail);
    AtJoin(text, i, items[0].Text(), more);
    if m < |text| {
      StartsBlank(items[1..], trail);
      AtFirst(text, m, more);
    }
  }

  lemma AtFirst(text: string, m: nat, more: string)
    requires At(text, m, more) && more != ""
    ensures m < |text| && text[m] == more[0]
  {
    assert text[m + 0] == more[0];
  }

  lemma StartsBlank(items: seq<Item>, trail: string)
    requires ValidItems(items) && AllIn(trail, IsBlank) && Render(items) + trail != ""
    ensures IsBlank((Render(items) + trail)[0])
  {
    if items == [] {
      assert (Render(items) + trail)[0] == trail[0];
    } else {
      assert (Render(items) + trail)[0] == items[0].sep[0];
    }
  }

  /** A rendering is accepted, and its items are what is read. */
  lemma {:induction false} RenderingScans(text: string, i: nat, items: seq<Item>, trail: string, options: map<string, string>)
    requires i <= |text| && Renders(text, i, items, trail) && Fresh(items, options)
    ensures ScanOptions(text, i, options) == Accepted(Collect(options, items))
    decreases |items|
  {
    hide *;
    if items == [] {
      RendersNothing(text, i, trail, options);
    } else {
      var item := items[0];
      RendersFirst(text, i, items, trail);
      FreshTail(text, i, items, trail, options);
      ItemScans(text, i, item, options);
      RenderingScans(text, i + |item.Text()|, items[1..], trail, options[item.key := item.token.Value()]);
    }
  }

  lemma FreshTail(text: string, i: nat, items: seq<Item>, trail: string, options: map<string, string>)
    requires items != [] && Renders(text, i, items, trail) && Fresh(items, options)
    ensures var longer := options[items[0].key := items[0].token.Value()];
            items[0].key !in options && Fresh(items[1..], longer) && Collect(options, items) == Collect(longer, items[1..])
  {
    hide Token.Value, ValidItems, AllIn, At, Render;
  }

  lemma RendersCons(text: string, i: nat, item: Item, rest: seq<Item>, trail: string, options: map<string, string>)
    requires item.Valid() && At(text, i, item.Text()) && item.key !in options
    requires Renders(text, i + |item.Text()|, rest, trail) && Fresh(rest, options[item.key := item.token.Value()])
    ensures Renders(text, i, [item] + rest, trail) && Fresh([item] + rest, options)
  {
    hide Item.Valid, AllIn, At;
    var items := [item] + rest;
    assert items[1..] == rest;
    var more := Render(rest) + trail;
    assert Render(items) + trail == item.Text() + more;
    AtJoin(text, i, item.Text(), more);
    hide Render;
    var longer := options[item.key := item.token.Value()];
    forall j | 0 <= j < |rest|
      ensures rest[j].key != item.key && rest[j].key !in options
    {
      assert rest[j].key !in longer;
    }
  }

  /** Whatever is accepted is a rendering. */
  lemma {:induction false} ScannedIsRendering(text: string, i: nat, options: map<string, string>)
    returns (items: seq<Item>, trail: string)
    requires i <= |text| && (i < |text| ==> IsBlank(text[i])) && ScanOptions(text, i, options).Accepted?
    ensures Renders(text, i, items, trail) && Fresh(items, options)
    decreases |text| - i
  {
    hide *;
    if RunEnd(text, i, IsBlank) >= |text| {
      items, trail := [], text[i..];
      BlanksRender(text, i, options);
    } else {
      NotAtEnd(text, i);
      var item := ScannedIsItem(text, i, options);
      ItemLength(item);
      var rest;
      rest, trail := ScannedIsRendering(text, i + |item.Text()|, options[item.key := item.token.Value()]);
      RendersCons(text, i, item, rest, trail, options);
      items := [item] + rest;
    }
  }

  lemma NotAtEnd(text: string, i: nat)
    requires i <= |text| && RunEnd(text, i, IsBlank) < |text|
    ensures i < |text|
  {
  }

  lemma BlanksRender(text: string, i: nat, options: map<string, string>)
    requires i <= |text| && RunEnd(text, i, IsBlank) >= |text|
    ensures Renders(text, i, [], text[i..]) && Fresh([], options)
  {
    assert Render([]) + text[i..] == text[i..] == text[i..|text|];
    AtSlice(text, i, |text|);
  }

  function LineOf(items: seq<Item>, trail: string): string {
    LIFT + (Render(items) + trail)
  }

  ghost predicate StartsLift(text: string) {
    At(text, 0, LIFT) && (|LIFT| < |text| ==> IsBlank(text[|LIFT|]))
  }

  lemma LiftLine(text: string)
    requires StartsLift(text)
    ensures ScanLine(text) == ScanOptions(text, |LIFT|, map[])
  {
    hide ScanOptions, RunEnd;
    assert LIFT == V2_PREFIX + "lift";
    assert text[0 + 2] == LIFT[2] == 'm';
    assert text[0 + 11] == LIFT[11] == 'l';
    assert text[0 + 12] == LIFT[12] == 'i';
    assert text[0 + 13] == LIFT[13] == 'f';
    assert text[0 + 14] == LIFT[14] == 't';
    assert !(AT_PREFIX <= text) by { assert AT_PREFIX[2] == ' '; }
    assert !(OFFLOAD_PREFIX <= text) by { assert OFFLOAD_PREFIX[11] == 'o'; }
    assert V2_PREFIX <= text by {
      forall k | 0 <= k < |V2_PREFIX|
        ensures V2_PREFIX[k] == text[k]
      {
        assert text[0 + k] == LIFT[k];
      }
    }
    RunEndIs(text, 11, NotBlank, 15);
  }

  lemma AcceptedIsLiftLine(text: string)
    requires ScanLine(text).Accepted?
    ensures StartsLift(text) && ScanLine(text) == ScanOptions(text, |LIFT|, map[])
  {
    hide ScanOptions;
    var verb := text[|V2_PREFIX|..RunEnd(text, |V2_PREFIX|, NotBlank)];
    assert verb == "lift" && |verb| == 4;
    AtSlice(text, 11, 15);
    assert text[..11] == V2_PREFIX;
    AtSlice(text, 0, 11);
    AtJoin(text, 0, V2_PREFIX, "lift");
    assert LIFT == V2_PREFIX + "lift";
  }

  /** The line is the pragma head followed by a rendering of these items. */
  ghost predicate IsRendering(text: string, items: seq<Item>, trail: string) {
    ValidItems(items) && DistinctKeys(items) && AllIn(trail, IsBlank) && text == LineOf(items, trail)
  }

  lemma LineIsRendered(text: string, items: seq<Item>, trail: string)
    ensures IsRendering(text, items, trail) <==> At(text, 0, LIFT) && Renders(text, |LIFT|, items, trail)
  {
    hide ValidItems, DistinctKeys, AllIn, At, Render;
    var more := Render(items) + trail;
    AtJoin(text, 0, LIFT, more);
    if |text| == |LIFT| + |more| {
      AtWhole(text, LIFT + more);
    }
  }

  lemma LineIsAccepted(text: string, items: seq<Item>, trail: string)
    requires IsRendering(text, items, trail)
    ensures ScanLine(text) == Accepted(Collect(map[], items))
  {
    hide IsRendering, At, ScanOptions, ScanLine, Render, ValidItems, DistinctKeys, AllIn;
    LineIsRendered(text, items, trail);
    assert StartsLift(text) by {
      if items == [] {
        RendersBlank(text, trail);
      } else {
        RendersFirst(text, |LIFT|, items, trail);
        FirstIsBlank(text, |LIFT|, items[0]);
      }
    }
    assert |LIFT| <= |text| by { AtIsSlice(text, 0, LIFT); }
    LiftLine(text);
    RenderingScans(text, |LIFT|, items, trail, map[]);
  }

  lemma RendersBlank(text: string, trail: string)
    requires Renders(text, |LIFT|, [], trail)
    ensures |LIFT| < |text| ==> IsBlank(text[|LIFT|])
  {
    assert Render([]) + trail == trail;
    if |LIFT| < |text| {
      assert text[|LIFT| + 0] == trail[0];
    }
  }

  lemma FirstIsBlank(text: string, i: nat, item: Item)
    requires item.Valid() && At(text, i, item.Text())
    ensures i < |text| && IsBlank(text[i])
  {
    ItemParts(text, i, item);
    assert text[i + 0] == item.sep[0];
  }

  /** The accepted lines are exactly the renderings of valid items with distinct keys. */
  lemma AcceptedIffRendering(text: string)
    ensures ScanLine(text).Accepted? <==> exists items, trail :: IsRendering(text, items, trail)
  {
    hide IsRendering, ScanLine, ScanOptions;
    if ScanLine(text).Accepted? {
      AcceptedIsLiftLine(text);
      assert |LIFT| <= |text| by { AtIsSlice(text, 0, LIFT); }
      var items, trail := ScannedIsRendering(text, |LIFT|, map[]);
      LineIsRendered(text, items, trail);
    }
    if items: seq<Item>, trail :| IsRendering(text, items, trail) {
      LineIsAccepted(text, items, trail);
    }
  }

  // ----- Round trip

  /** The items say exactly the options, in any order and any spelling of the values. */
  ghost predicate Describes(items: seq<Item>, options: map<string, string>) {
    && (forall i | 0 <= i < |items| :: items[i].key in options && options[items[i].key] == items[i].token.Value())
    && (forall k | k in options :: exists i :: 0 <= i < |items| && items[i].key == k)
  }

  /** Reading items with distinct keys into a map keeps what was there and adds exactly them. */
  lemma {:induction false} CollectHolds(options: map<string, string>, items: seq<Item>, k: string)
    requires DistinctKeys(items)
    ensures k in Collect(options, items) <==> k in options || exists i :: 0 <= i < |items| && items[i].key == k
    ensures (forall i | 0 <= i < |items| :: items[i].key != k) && k in options ==> Collect(options, items)[k] == options[k]
    ensures forall i | 0 <= i < |items| && items[i].key == k :: Collect(options, items)[k] == items[i].token.Value()
    decreases |items|
  {
    if items != [] {
      hide Token.Value;
      var first, rest := items[0], items[1..];
      assert forall i | 0 < i < |items| :: items[i] == rest[i - 1] && items[i].key != first.key;
      CollectHolds(options[first.key := first.token.Value()], rest, k);
      if i :| 0 <= i < |rest| && rest[i].key == k {
        assert items[i + 1].key == k;
      }
    }
  }

  lemma CollectIsDescribed(items: seq<Item>)
    requires DistinctKeys(items)
    ensures Describes(items, Collect(map[], items))
  {
    hide Token.Value, Collect;
    var m := Collect(map[], items);
    forall i | 0 <= i < |items|
      ensures items[i].key in m && m[items[i].key] == items[i].token.Value()
    {
      CollectHolds(map[], items, items[i].key);
    }
    forall k | k in m
      ensures exists i :: 0 <= i < |items| && items[i].key == k
    {
      CollectHolds(map[], items, k);
    }
  }

  lemma DescribesOne(items: seq<Item>, a: map<string, string>, b: map<string, string>)
    requires Describes(items, a) && Describes(items, b)
    ensures a == b
  {
    forall k | k in a
      ensures k in b && a[k] == b[k]
    {
      var i :| 0 <= i < |items| && items[i].key == k;
    }
    forall k | k in b
      ensures k in a
    {
      var i :| 0 <= i < |items| && items[i].key == k;
    }
  }

  /** Rendering any options and parsing the line gives the same options back, whatever the order
      of the keys, the blanks between them and the way each value is quoted. */
  lemma RoundTrip(options: map<string, string>, items: seq<Item>, trail: string)
    requires ValidItems(items) && DistinctKeys(items) && AllIn(trail, IsBlank) && Describes(items, options)
    ensures ScanLine(LineOf(items, trail)) == Accepted(options)
  {
    hide ScanLine, Describes, ValidItems, DistinctKeys, AllIn, LineOf;
    LineIsAccepted(LineOf(items, trail), items, trail);
    CollectIsDescribed(items);
    DescribesOne(items, options, Collect(map[], items));
  }

  /** What a value can say: bytes of ASCII other than carriage return. */
  predicate Sayable(v: string) {
    forall i | 0 <= i < |v| :: (v[i] as int) < 0x80 && v[i] != '\r'
  }

  function PieceFor(c: char): Piece {
    if c == '"' || c == '\\' then Esc(c) else if c == '\n' then Esc('n') else if c == '\t' then Esc('t') else Raw(c)
  }

  function PiecesFor(v: string): seq<Piece> {
    if v == "" then [] else [PieceFor(v[0])] + PiecesFor(v[1..])
  }

  lemma {:induction false} PiecesSay(v: string)
    requires Sayable(v)
    ensures ValidPieces(PiecesFor(v)) && PiecesValue(PiecesFor(v)) == v
  {
    if v != "" {
      PiecesSay(v[1..]);
      assert v == [v[0]] + v[1..];
      assert PiecesFor(v)[1..] == PiecesFor(v[1..]);
      assert PieceFor(v[0]).Valid() && PieceFor(v[0]).Value() == v[0];
    }
  }

  lemma {:induction false} PiecesAreSayable(ps: seq<Piece>)
    requires ValidPieces(ps)
    ensures Sayable(PiecesValue(ps))
  {
    if ps != [] {
      PiecesAreSayable(ps[1..]);
      assert ps[0].Valid();
    }
  }

  lemma TokenIsSayable(token: Token)
    requires token.Valid()
    ensures Sayable(token.Value())
  {
    match token
    case Bare(s) =>
    case Quoted(ps) => PiecesAreSayable(ps);
  }

  function ItemsFor(keys: seq<string>, options: map<string, string>): seq<Item>
    requires forall k | k in keys :: k in options
  {
    if keys == [] then []
    else [Item(" ", keys[0], Quoted(PiecesFor(options[keys[0]])))] + ItemsFor(keys[1..], options)
  }

  lemma {:induction false} ItemsForAre(keys: seq<string>, options: map<string, string>)
    requires forall k | k in keys :: k in options && ValidKey(k) && Sayable(options[k])
    ensures var items := ItemsFor(keys, options);
            && |items| == |keys| && ValidItems(items)
            && forall i | 0 <= i < |keys| :: items[i].key == keys[i] && items[i].token.Value() == options[keys[i]]
  {
    if keys != [] {
      hide ValidKey, Sayable, PiecesFor, PiecesValue, ValidPieces;
      PiecesSay(options[keys[0]]);
      ItemsForAre(keys[1..], options);
      assert AllIn(" ", IsBlank);
    }
  }

  lemma {:induction false} KeysInOrder(keys: set<string>) returns (order: seq<string>)
    ensures forall i, j | 0 <= i < j < |order| :: order[i] != order[j]
    ensures forall k :: k in keys <==> k in order
  {
    if keys == {} {
      order := [];
    } else {
      var k :| k in keys;
      var rest := KeysInOrder(keys - {k});
      order := [k] + rest;
      assert k !in rest;
    }
  }

  ghost predicate Expressible(options: map<string, string>) {
    forall k | k in options :: ValidKey(k) && Sayable(options[k])
  }

  lemma SaidIsSayable(items: seq<Item>, options: map<string, string>)
    requires ValidItems(items) && Describes(items, options)
    ensures Expressible(options)
  {
    hide ValidKey, Sayable, Token.Value, Token.Valid;
    forall k | k in options
      ensures ValidKey(k) && Sayable(options[k])
    {
      var i :| 0 <= i < |items| && items[i].key == k;
      assert items[i].Valid();
      TokenIsSayable(items[i].token);
    }
  }

  lemma SayableIsSaid(options: map<string, string>) returns (items: seq<Item>)
    requires Expressible(options)
    ensures ValidItems(items) && DistinctKeys(items) && Describes(items, options)
  {
    hide ValidKey, Sayable, ValidItems, ItemsFor, Token.Value;
    var keys := KeysInOrder(options.Keys);
    ItemsForAre(keys, options);
    items := ItemsFor(keys, options);
    forall k | k in options
      ensures exists i :: 0 <= i < |items| && items[i].key == k
    {
      var i :| 0 <= i < |keys| && keys[i] == k;
      assert items[i].key == k;
    }
  }

  /** A map of options is what some line says exactly when its keys are valid and its values are
      ASCII without carriage returns. */
  lemma ExpressibleExactly(options: map<string, string>)
    ensures (exists text :: ScanLine(text) == Accepted(options)) <==> Expressible(options)
  {
    hide ScanLine, Expressible, LineOf, Describes, ValidItems, DistinctKeys, Collect;
    if text :| ScanLine(text) == Accepted(options) {
      AcceptedIffRendering(text);
      var items: seq<Item>, trail :| IsRendering(text, items, trail);
      LineIsAccepted(text, items, trail);
      CollectIsDescribed(items);
      SaidIsSayable(items, options);
    }
    if Expressible(options) {
      var items := SayableIsSaid(options);
      RoundTrip(options, items, "");
    }
  }

  // ----- Rejections

  lemma {:induction false} OptionSpans(text: string, i: nat, options: map<string, string>)
    requires i <= |text|
    ensures var r := ScanOptions(text, i, options);
            && !r.Ignored? && (r.Rejected? ==> i <= r.start <= r.end <= |text|)
    decreases |text| - i
  {
    hide ScanKey, ScanValue, RunEnd;
    var k := RunEnd(text, i, IsBlank);
    if k < |text| && ScanKey(text, k).Found? {
      var n := ScanKey(text, k).next;
      if n < |text| && ScanValue(text, n + 1).Val? {
        var m := ScanValue(text, n + 1).next;
        if text[k..n] !in options && (m < |text| ==> IsBlank(text[m])) {
          OptionSpans(text, m, options[text[k..n] := ScanValue(text, n + 1).value]);
        }
      }
    }
  }

  /** Why the text at `k` is no key: `n` is where a segment should have started. */
  ghost predicate KeyProblem(text: string, k: nat, n: nat, p: Problem) {
    && k <= n <= |text| && (n == k || (k + 1 < n && KeyAt(text, k, n - 1) && IsSeparator(text[n - 1])))
    && if p == EmptyKeySegment then n == |text| && n > k else p == BadKey && if n < |text| then !IsLetter(text[n]) else n == k
  }

  lemma {:induction false} KeyRefused(text: string, i: nat)
    requires i <= |text| && ScanKey(text, i).Bad?
    ensures KeyProblem(text, i, ScanKey(text, i).next, ScanKey(text, i).problem)
    decreases |text| - i
  {
    hide KeyAt, IsIdentContinue, IsLetter, IsSeparator, ScanKey, RunEnd;
    BadKeyStep(text, i);
    if i < |text| && IsLetter(text[i]) {
      var e := RunEnd(text, i + 1, IsIdentContinue);
      SegmentIsKey(text, i, e);
      if e + 1 < |text| {
        KeyRefused(text, e + 1);
        var n := ScanKey(text, e + 1).next;
        if n > e + 1 {
          SegmentJoins(text, i, e, n - 1);
        }
      }
    }
  }

  lemma BadKeyStep(text: string, i: nat)
    requires i <= |text| && ScanKey(text, i).Bad?
    ensures i >= |text| || !IsLetter(text[i]) ==> ScanKey(text, i) == Bad(i, BadKey)
    ensures i < |text| && IsLetter(text[i]) ==>
              var e := RunEnd(text, i + 1, IsIdentContinue);
              && e < |text| && IsSeparator(text[e])
              && ScanKey(text, i) == if e + 1 >= |text| then Bad(e + 1, EmptyKeySegment) else ScanKey(text, e + 1)
  {
    hide RunEnd;
  }

  /** Why a quoted value breaks off behind the pieces that end at `m`. */
  predicate QuoteProblem(text: string, m: nat, n: nat, p: Problem) {
    && m <= n <= |text|
    && match p
       case NewlineInQuotes => m == n < |text| && (text[m] == '\n' || text[m] == '\r')
       case UnterminatedEscape => m == n == |text| - 1 && text[m] == '\\'
       case InvalidEscape(c) => m + 1 == n < |text| && text[m] == '\\' && text[n] == c && !Esc(c).Valid()
       case NonAscii => m == n < |text| && text[m] as int >= 0x80
       case UnterminatedQuote => m == n == |text|
       case _ => false
  }

  /** Behind the quote at `s` stand valid pieces, and then it breaks off. */
  ghost predicate BreaksOff(text: string, s: nat, ps: seq<Piece>, n: nat, p: Problem) {
    ValidPieces(ps) && At(text, s + 1, PiecesText(ps)) && QuoteProblem(text, s + 1 + |PiecesText(ps)|, n, p)
  }

  ghost predicate ValueProblem(text: string, s: nat, n: nat, p: Problem) {
    if p == EmptyValue then s == n == |text|
    else if p == BadBareValue then s == n < |text| && text[s] != '"' && !IsBareChar(text[s])
    else s < |text| && text[s] == '"' && exists ps :: BreaksOff(text, s, ps, n, p)
  }

  lemma PieceAhead(text: string, i: nat, acc: string) returns (p: Piece)
    requires i < |text| && ScanQuoted(text, i, acc).BadValue?
    requires !QuoteProblem(text, i, ScanQuoted(text, i, acc).next, ScanQuoted(text, i, acc).problem)
    ensures p.Valid() && At(text, i, p.Text()) && i + |p.Text()| <= |text|
    ensures ScanQuoted(text, i, acc) == ScanQuoted(text, i + |p.Text()|, acc + [p.Value()])
  {
    p := if text[i] == '\\' then Esc(text[i + 1]) else Raw(text[i]);
  }

  lemma {:induction false} QuotedRefused(text: string, i: nat, acc: string) returns (ps: seq<Piece>)
    requires 0 < i <= |text| && ScanQuoted(text, i, acc).BadValue?
    ensures BreaksOff(text, i - 1, ps, ScanQuoted(text, i, acc).next, ScanQuoted(text, i, acc).problem)
    decreases |text| - i
  {
    var n, p := ScanQuoted(text, i, acc).next, ScanQuoted(text, i, acc).problem;
    if i >= |text| || QuoteProblem(text, i, n, p) {
      ps := [];
    } else {
      var piece := PieceAhead(text, i, acc);
      hide ScanQuoted, At, QuoteProblem;
      var rest := QuotedRefused(text, i + |piece.Text()|, acc + [piece.Value()]);
      ps := [piece] + rest;
      assert ps[1..] == rest;
      AtJoin(text, i, piece.Text(), PiecesText(rest));
    }
  }

  lemma ValueRefused(text: string, s: nat)
    requires s <= |text| && ScanValue(text, s).BadValue?
    ensures ValueProblem(text, s, ScanValue(text, s).next, ScanValue(text, s).problem)
  {
    hide ScanQuoted, At, PiecesText;
    if s < |text| && text[s] == '"' {
      var ps := QuotedRefused(text, s + 1, "");
    }
  }

  /** Why the scan stops at the key that starts at `k`, these keys being taken. */
  ghost predicate Refuses(text: string, k: nat, taken: set<string>, p: Problem, s: nat, e: nat) {
    && k < |text| && !IsBlank(text[k])
    && ((s == k && KeyProblem(text, k, e, p)) || exists n: nat :: RefusesAfter(text, k, n, taken, p, s, e))
  }

  /** Why it stops behind the key `text[k..n]`. */
  ghost predicate RefusesAfter(text: string, k: nat, n: nat, taken: set<string>, p: Problem, s: nat, e: nat) {
    && KeyAt(text, k, n) && EndsKey(text, n)
    && if n >= |text| || text[n] != '=' then p == MissingEquals(text[k..n]) && s == k && e == n
       else (s == n + 1 && ValueProblem(text, n + 1, e, p)) || exists t :: RefusesToken(text, k, n, t, taken, p, s, e)
  }

  /** Why it stops behind the value `t`: the key is taken, or something other than a blank follows. */
  ghost predicate RefusesToken(text: string, k: nat, n: nat, t: Token, taken: set<string>, p: Problem, s: nat, e: nat)
    requires k <= n <= |text|
  {
    var m := n + 1 + |t.Text()|;
    && t.Valid() && At(text, n + 1, t.Text()) && EndsToken(text, t, m)
    && if text[k..n] in taken then p == DuplicateKey(text[k..n]) && s == k && e == m
       else m < |text| && !IsBlank(text[m]) && p == TrailingGarbage && s == m && e == m + 1
  }

  predicate StopsHere(text: string, k: nat, options: map<string, string>)
    requires k < |text|
  {
    var n := ScanKey(text, k).next;
    || ScanKey(text, k).Bad? || n >= |text| || text[n] != '=' || ScanValue(text, n + 1).BadValue? || n < k || text[k..n] in options
    || (ScanValue(text, n + 1).next < |text| && !IsBlank(text[ScanValue(text, n + 1).next]))
  }

  lemma KeyOrAfter(text: string, k: nat, options: map<string, string>)
    requires k < |text| && !IsBlank(text[k])
    requires StopsHere(text, k, options)
    ensures ScanKey(text, k).Bad? ==> Refuses(text, k, options.Keys, ScanKey(text, k).problem, k, ScanKey(text, k).next)
    ensures ScanKey(text, k).Found? ==>
              var r := AfterKey(text, k, ScanKey(text, k).next, options);
              r.Rejected? && Refuses(text, k, options.Keys, r.problem, r.start, r.end)
  {
    hide ScanKey, ScanValue, ScanOptions, KeyAt, EndsKey, KeyProblem, ValueProblem, At, Token.Text, Token.Valid, EndsToken;
    if ScanKey(text, k).Bad? {
      KeyRefused(text, k);
    } else {
      var n := ScanKey(text, k).next;
      ScannedIsKey(text, k);
      var r := AfterKey(text, k, n, options);
      if n < |text| && text[n] == '=' {
        if ScanValue(text, n + 1).BadValue? {
          ValueRefused(text, n + 1);
        } else {
          var t := ScannedIsToken(text, n + 1);
          assert RefusesToken(text, k, n, t, options.Keys, r.problem, r.start, r.end);
        }
      }
      assert RefusesAfter(text, k, n, options.Keys, r.problem, r.start, r.end);
    }
  }

  function KeysOf(items: seq<Item>): set<string> {
    set item | item in items :: item.key
  }

  /** Valid items and blanks stand at `i`; behind them the scan stops. */
  ghost predicate StopsBehind(text: string, i: nat, items: seq<Item>, blanks: string, taken: set<string>, p: Problem, s: nat, e: nat) {
    && ValidItems(items) && DistinctKeys(items) && AllIn(blanks, IsBlank) && At(text, i, Render(items) + blanks)
    && Refuses(text, i + |Render(items) + blanks|, taken + KeysOf(items), p, s, e)
  }

  lemma StopsAtOnce(text: string, i: nat, k: nat, taken: set<string>, p: Problem, s: nat, e: nat)
    requires i <= |text| && k == RunEnd(text, i, IsBlank) && Refuses(text, k, taken, p, s, e)
    ensures StopsBehind(text, i, [], text[i..k], taken, p, s, e)
  {
    hide Refuses;
    assert Render([]) + text[i..k] == text[i..k];
    assert taken + KeysOf([]) == taken;
    AtSlice(text, i, k);
  }

  lemma StopsCons(text: string, i: nat, item: Item, rest: seq<Item>, blanks: string, options: map<string, string>, p: Problem, s: nat, e: nat)
    requires item.Valid() && At(text, i, item.Text()) && item.key !in options
    requires StopsBehind(text, i + |item.Text()|, rest, blanks, options.Keys + {item.key}, p, s, e)
    requires Fresh(rest, options[item.key := item.token.Value()])
    ensures StopsBehind(text, i, [item] + rest, blanks, options.Keys, p, s, e) && Fresh([item] + rest, options)
  {
    hide Item.Valid, AllIn, At, Refuses;
    var items := [item] + rest;
    assert items[1..] == rest;
    var more := Render(rest) + blanks;
    assert Render(items) + blanks == item.Text() + more;
    AtJoin(text, i, item.Text(), more);
    hide Render;
    var longer := options[item.key := item.token.Value()];
    forall j | 0 <= j < |rest|
      ensures rest[j].key != item.key && rest[j].key !in options
    {
      assert rest[j].key !in longer;
    }
    assert KeysOf(items) == {item.key} + KeysOf(rest);
    assert options.Keys + KeysOf(items) == options.Keys + {item.key} + KeysOf(rest);
  }

  lemma OptionsRefusedHere(text: string, i: nat, options: map<string, string>, k: nat)
    requires i <= |text| && k == RunEnd(text, i, IsBlank) < |text| && ScanOptions(text, i, options).Rejected?
    ensures || Refuses(text, k, options.Keys, ScanOptions(text, i, options).problem, ScanOptions(text, i, options).start,
                       ScanOptions(text, i, options).end)
            || exists n: nat, v: string, m: nat :: GoesOn(text, k, n, v, m, options)
                                 && ScanOptions(text, i, options) == ScanOptions(text, m, options[text[k..n] := v])
  {
    hide ScanKey, ScanValue, RunEnd, Refuses;
    OptionsUnfold(text, i, options);
    if ScanKey(text, k).Found? {
      var n := ScanKey(text, k).next;
      if n < |text| && text[n] == '=' && ScanValue(text, n + 1).Val? {
        var v, m := ScanValue(text, n + 1).value, ScanValue(text, n + 1).next;
        if text[k..n] !in options && (m < |text| ==> IsBlank(text[m])) {
          assert GoesOn(text, k, n, v, m, options);
          OptionsStep(text, i, options, k, n, v, m);
          return;
        }
      }
    }
    KeyOrAfter(text, k, options);
  }

  ghost predicate GoesOn(text: string, k: nat, n: nat, v: string, m: nat, options: map<string, string>) {
    && k <= n < |text| && m <= |text| && ScanKey(text, k) == Found(n) && text[n] == '=' && ScanValue(text, n + 1) == Val(v, m)
    && text[k..n] !in options && (m < |text| ==> IsBlank(text[m]))
  }

  lemma {:induction false} OptionsRefused(text: string, i: nat, options: map<string, string>)
    returns (items: seq<Item>, blanks: string)
    requires i <= |text| && (i < |text| ==> IsBlank(text[i])) && ScanOptions(text, i, options).Rejected?
    ensures var r := ScanOptions(text, i, options);
            StopsBehind(text, i, items, blanks, options.Keys, r.problem, r.start, r.end) && Fresh(items, options)
    decreases |text| - i
  {
    hide ScanKey, ScanValue, ScanOptions, RunEnd, Refuses, StopsBehind, Item.Valid, At, Item.Text;
    var r := ScanOptions(text, i, options);
    var k := RunEnd(text, i, IsBlank);
    OptionsUnfold(text, i, options);
    OptionsRefusedHere(text, i, options, k);
    if Refuses(text, k, options.Keys, r.problem, r.start, r.end) {
      items, blanks := [], text[i..k];
      StopsAtOnce(text, i, k, options.Keys, r.problem, r.start, r.end);
    } else {
      var n: nat, v: string, m: nat :| GoesOn(text, k, n, v, m, options) && r == ScanOptions(text, m, options[text[k..n] := v]);
      var item := ItemTaken(text, i, k, n, v, m);
      ScanMoves(text, n + 1);
      var rest;
      rest, blanks := OptionsRefused(text, m, options[text[k..n] := v]);
      assert options[text[k..n] := v].Keys == options.Keys + {item.key};
      StopsCons(text, i, item, rest, blanks, options, r.problem, r.start, r.end);
      items := [item] + rest;
    }
  }

  /** The verb of the line: everything up to the first blank. */
  ghost predicate VerbIs(text: string, verb: string) {
    && V2_PREFIX <= text && |V2_PREFIX + verb| <= |text| && text[|V2_PREFIX|..|V2_PREFIX + verb|] == verb && AllIn(verb, NotBlank)
    && (|V2_PREFIX + verb| < |text| ==> IsBlank(text[|V2_PREFIX + verb|]))
  }

  /** What a rejection says is so: an older pragma form, another verb, or valid items with distinct keys up
      to where a key or a value goes wrong, is missing its equals sign, is given twice or is not followed by a blank. */
  lemma RejectionsAreExplained(text: string)
    requires ScanLine(text).Rejected?
    ensures var r := ScanLine(text);
            match r.problem
            case V1Syntax => (AT_PREFIX <= text || OFFLOAD_PREFIX <= text) && r.start == 0 && r.end == |text|
            case UnknownVerb(verb) => VerbIs(text, verb) && verb != "lift" && r.start == |V2_PREFIX| && r.end == |V2_PREFIX + verb|
            case _ => VerbIs(text, "lift") && exists items, blanks :: StopsBehind(text, |LIFT|, items, blanks, {}, r.problem, r.start, r.end)
  {
    hide ScanOptions, StopsBehind, Refuses;
    if V2_PREFIX <= text && !(AT_PREFIX <= text) && !(OFFLOAD_PREFIX <= text) {
      var e := RunEnd(text, |V2_PREFIX|, NotBlank);
      if text[|V2_PREFIX|..e] == "lift" {
        assert LIFT == V2_PREFIX + "lift";
        var nothing: map<string, string> := map[];
        var items, blanks := OptionsRefused(text, e, nothing);
        assert nothing.Keys == {};
        OptionProblems(text, e, items, blanks, ScanLine(text).problem, ScanLine(text).start, ScanLine(text).end);
      }
    }
  }

  lemma OptionProblems(text: string, i: nat, items: seq<Item>, blanks: string, p: Problem, s: nat, e: nat)
    requires StopsBehind(text, i, items, blanks, {}, p, s, e)
    ensures !p.V1Syntax? && !p.UnknownVerb?
  {
    hide KeyAt, EndsKey, At, Token.Text, Token.Valid, EndsToken, ValidItems, DistinctKeys, AllIn, Render;
  }

  /** Every rejection points inside the text; a line is ignored only when it is no pragma at all. */
  lemma RejectionSpans(text: string)
    ensures var r := ScanLine(text);
            && (r.Rejected? ==> r.start <= r.end <= |text|)
            && (r.Ignored? <==> !(AT_PREFIX <= text) && !(V2_PREFIX <= text))
  {
    hide ScanOptions, RunEnd;
    assert OFFLOAD_PREFIX == V2_PREFIX + "offload";
    assert OFFLOAD_PREFIX <= text ==> V2_PREFIX <= text;
    if V2_PREFIX <= text {
      OptionSpans(text, RunEnd(text, |V2_PREFIX|, NotBlank), map[]);
    }
  }
}
