/**
The JSON text of a queued task. `AckTask` finds the entry to delete by searching this text for
`"taskId":"<id>"`; the main result here is that the search finds a task exactly when the task
has that id, whatever the user typed as keyword.

Text is described as a sequence of pieces, so that "inside a string" and "between strings" are
visible; the search itself only ever sees the flat characters.
*/
module TaskText {
  import opened Decimal

  /** An enum field as it is printed: not at all, by its name, or as a bare number that has no name. */
  datatype Enum = Default | Named(name: string) | Unnamed(number: int)

  /** The protobuf message that is queued. */
  datatype FetchRequest = FetchRequest(
    taskId: string, platform: Enum, keyword: string, minPrice: int, maxPrice: int,
    excludeKeywords: seq<string>, onlyOnSale: bool, limit: int, sort: Enum, order: Enum, createdAt: int)

  datatype Value = Str(s: string) | Num(n: int) | Bool(b: bool) | Arr(elems: seq<string>)

  /** The message's fields, in field order. */
  datatype Field = TaskId | Platform | Keyword | MinPrice | MaxPrice | ExcludeKeywords
                 | OnlyOnSale | Limit | Sort | Order | CreatedAt

  datatype Member = Member(field: Field, value: Value)

  /** The JSON name of a field. */
  function KeyName(f: Field): string {
    match f
    case TaskId => "taskId"
    case Platform => "platform"
    case Keyword => "keyword"
    case MinPrice => "minPrice"
    case MaxPrice => "maxPrice"
    case ExcludeKeywords => "excludeKeywords"
    case OnlyOnSale => "onlyOnSale"
    case Limit => "limit"
    case Sort => "sort"
    case Order => "order"
    case CreatedAt => "createdAt"
  }

  /** `Key` prints as `"raw":`, `Quoted` as `"raw"`, and `Mark` is one character outside any string. */
  datatype Piece = Key(raw: string) | Quoted(raw: string) | Mark(c: char)

  // ---------------------------------------------------------------- string escaping

  function Hex(n: nat): char
    requires n < 16
  {
    "0123456789abcdef"[n]
  }

  /** Escaping of one character as section 7 of RFC 8259 asks. */
  function EscapeChar(c: char): string {
    if c == '\"' then "\\\""
    else if c == '\\' then "\\\\"
    else if c == '\n' then "\\n"
    else if c == '\r' then "\\r"
    else if c == '\t' then "\\t"
    else if c as int == 8 then "\\b"
    else if c as int == 12 then "\\f"
    else if c as int < 32 then "\\u00" + [Hex(c as int / 16), Hex(c as int % 16)]
    else [c]
  }

  function Escape(s: string): string {
    if s == [] then [] else EscapeChar(s[0]) + Escape(s[1..])
  }

  /** `raw` is the inside of a string literal: every quote in it belongs to a backslash pair. */
  predicate WellEscaped(raw: string) {
    if raw == [] then true
    else if raw[0] == '\\' then |raw| >= 2 && WellEscaped(raw[2..])
    else raw[0] != '\"' && WellEscaped(raw[1..])
  }

  /** A field name: nothing in it needs escaping. */
  predicate PlainKey(key: string) {
    forall i :: 0 <= i < |key| ==> key[i] != '\"' && key[i] != '\\' && key[i] as int >= 32
  }

  lemma EscapeCharShape(c: char)
    ensures var e := EscapeChar(c);
            if e[0] == '\\' then |e| >= 2 && forall i :: 2 <= i < |e| ==> e[i] != '\"' && e[i] != '\\'
            else |e| == 1 && e[0] != '\"'
  {
  }

  lemma {:induction false} EscapeIsWellEscaped(s: string)
    ensures WellEscaped(Escape(s))
  {
    if s != [] {
      EscapeIsWellEscaped(s[1..]);
      EscapeCharShape(s[0]);
      var c, rest := EscapeChar(s[0]), Escape(s[1..]);
      if c[0] == '\\' {
        PlainPrefix(c[2..], rest);
        assert (c + rest)[2..] == c[2..] + rest;
      } else {
        assert (c + rest)[1..] == rest;
      }
    }
  }

  lemma PlainIsWellEscaped(key: string)
    requires PlainKey(key)
    ensures WellEscaped(key)
  {
    PlainPrefix(key, "");
    assert key + "" == key;
  }

  lemma {:induction false} PlainPrefix(plain: string, rest: string)
    requires forall i :: 0 <= i < |plain| ==> plain[i] != '\"' && plain[i] != '\\'
    requires WellEscaped(rest)
    ensures WellEscaped(plain + rest)
  {
    if plain == [] {
      assert plain + rest == rest;
    } else {
      PlainPrefix(plain[1..], rest);
      assert (plain + rest)[1..] == plain[1..] + rest;
    }
  }

  /** A quote inside a string literal always directly follows a backslash. */
  lemma {:induction false} QuoteFollowsBackslash(raw: string, i: nat)
    requires WellEscaped(raw) && i < |raw| && raw[i] == '\"'
    ensures i >= 1 && raw[i - 1] == '\\'
  {
    if raw[0] == '\\' {
      if i >= 2 {
        QuoteFollowsBackslash(raw[2..], i - 2);
      }
    } else {
      QuoteFollowsBackslash(raw[1..], i - 1);
    }
  }

  /** Text without a backslash has not been escaped at all. */
  lemma {:induction false} EscapeOfPlain(s: string)
    requires forall i :: 0 <= i < |Escape(s)| ==> Escape(s)[i] != '\\'
    ensures Escape(s) == s
  {
    if s != [] {
      var c, rest := EscapeChar(s[0]), Escape(s[1..]);
      assert Escape(s) == c + rest;
      assert c[0] == Escape(s)[0];
      assert forall i :: 0 <= i < |rest| ==> rest[i] == Escape(s)[|c| + i];
      EscapeOfPlain(s[1..]);
    }
  }

  lemma {:induction false} EscapeKeepsDigits(s: string)
    requires AllDigits(s)
    ensures Escape(s) == s
  {
    if s != [] {
      EscapeKeepsDigits(s[1..]);
    }
  }

  // ---------------------------------------------------------------- printing

  function PieceText(p: Piece): string {
    match p
    case Key(raw) => "\"" + raw + "\":"
    case Quoted(raw) => "\"" + raw + "\""
    case Mark(c) => [c]
  }

  function Render(ps: seq<Piece>): string {
    if ps == [] then [] else PieceText(ps[0]) + Render(ps[1..])
  }

  function Marks(s: string): (ps: seq<Piece>)
    ensures |ps| == |s| && forall i :: 0 <= i < |s| ==> ps[i] == Mark(s[i])
  {
    seq(|s|, i requires 0 <= i < |s| => Mark(s[i]))
  }

  /** The encoder puts either nothing or one blank behind every comma; which one is fixed per build. */
  function Separator(more: bool, spaced: bool): seq<Piece> {
    if !more then [] else if spaced then Marks(", ") else Marks(",")
  }

  function ElemPieces(elems: seq<string>, spaced: bool): seq<Piece> {
    if elems == [] then []
    else [Quoted(Escape(elems[0]))] + Separator(|elems| > 1, spaced) + ElemPieces(elems[1..], spaced)
  }

  function ValuePieces(v: Value, spaced: bool): seq<Piece> {
    match v
    case Str(s) => [Quoted(Escape(s))]
    case Num(n) => Marks(Numeral(n))
    case Bool(b) => Marks(if b then "true" else "false")
    case Arr(elems) => Marks("[") + ElemPieces(elems, spaced) + Marks("]")
  }

  function OneMember(m: Member, spaced: bool): seq<Piece> {
    [Key(KeyName(m.field))] + ValuePieces(m.value, spaced)
  }

  function MemberPieces(ms: seq<Member>, spaced: bool): seq<Piece> {
    if ms == [] then []
    else OneMember(ms[0], spaced) + Separator(|ms| > 1, spaced) + MemberPieces(ms[1..], spaced)
  }

  function ObjectText(ms: seq<Member>, spaced: bool): string {
    Render(Marks("{") + MemberPieces(ms, spaced) + Marks("}"))
  }

  function TextMember(f: Field, s: string): seq<Member> {
    if s == "" then [] else [Member(f, Str(s))]
  }

  function NumMember(f: Field, n: int): seq<Member> {
    if n == 0 then [] else [Member(f, Num(n))]
  }

  function EnumMember(f: Field, v: Enum): seq<Member> {
    match v
    case Default => []
    case Named(name) => [Member(f, Str(name))]
    case Unnamed(n) => [Member(f, Num(n))]
  }

  /** The members behind `taskId`; default values are not printed and a 64-bit integer is printed as a string. */
  function OtherMembers(r: FetchRequest): (ms: seq<Member>)
    ensures forall m :: m in ms ==> !m.field.TaskId?
  {
    SearchMembers(r) + ControlMembers(r)
  }

  function SearchMembers(r: FetchRequest): (ms: seq<Member>)
    ensures forall m :: m in ms ==> !m.field.TaskId?
  {
    EnumMember(Platform, r.platform) + TextMember(Keyword, r.keyword)
    + NumMember(MinPrice, r.minPrice) + NumMember(MaxPrice, r.maxPrice)
    + (if r.excludeKeywords == [] then [] else [Member(ExcludeKeywords, Arr(r.excludeKeywords))])
  }

  function ControlMembers(r: FetchRequest): (ms: seq<Member>)
    ensures forall m :: m in ms ==> !m.field.TaskId?
  {
    (if r.onlyOnSale then [Member(OnlyOnSale, Bool(true))] else [])
    + NumMember(Limit, r.limit) + EnumMember(Sort, r.sort) + EnumMember(Order, r.order)
    + (if r.createdAt == 0 then [] else [Member(CreatedAt, Str(Numeral(r.createdAt)))])
  }

  function Members(r: FetchRequest): (ms: seq<Member>)
    ensures forall m :: m in ms && m.field.TaskId? ==> m.value == Str(r.taskId)
  {
    TextMember(TaskId, r.taskId) + OtherMembers(r)
  }

  function RequestText(r: FetchRequest, spaced: bool): string {
    ObjectText(Members(r), spaced)
  }

  // ---------------------------------------------------------------- searching

  predicate OccursAt(text: string, k: nat, pattern: string) {
    k + |pattern| <= |text| && text[k..k + |pattern|] == pattern
  }

  lemma OccursByChars(text: string, k: nat, pattern: string)
    requires k + |pattern| <= |text|
    ensures OccursAt(text, k, pattern) <==> forall h :: 0 <= h < |pattern| ==> text[k + h] == pattern[h]
  {
    var cut := text[k..k + |pattern|];
    assert forall h :: 0 <= h < |pattern| ==> cut[h] == text[k + h];
  }

  /** Lua's `string.find` for a pattern without magic characters. */
  predicate Contains(text: string, pattern: string) {
    exists k :: 0 <= k <= |text| && OccursAt(text, k, pattern)
  }

  function AckPattern(id: string): string {
    "\"taskId\":\"" + id + "\""
  }

  /** What the pieces of an object promise: marks are never a quote, a colon or a `k`. */
  predicate Printable(p: Piece) {
    match p
    case Mark(c) => c != '\"' && c != ':' && c != 'k'
    case Key(raw) => PlainKey(raw)
    case Quoted(raw) => WellEscaped(raw)
  }

  predicate AllPrintable(ps: seq<Piece>) {
    forall i :: 0 <= i < |ps| ==> Printable(ps[i])
  }

  /** Piece `j` is the key `taskId` and the literal behind it is `id`. */
  predicate TaskIdField(ps: seq<Piece>, j: nat, id: string) {
    j + 1 < |ps| && ps[j] == Key("taskId") && !ps[j + 1].Mark? && ps[j + 1].raw == id
  }

  /** `t` starts with the text of piece `p`. */
  predicate StartsWithPiece(t: string, p: Piece) {
    match p
    case Mark(c) => |t| >= 1 && t[0] == c
    case Key(raw) => StartsWithLiteral(t, raw) && |t| >= |raw| + 3 && t[|raw| + 2] == ':'
    case Quoted(raw) => StartsWithLiteral(t, raw)
  }

  predicate StartsWithLiteral(t: string, raw: string) {
    |t| >= |raw| + 2 && t[0] == '\"' && t[|raw| + 1] == '\"' && forall h :: 0 <= h < |raw| ==> t[1 + h] == raw[h]
  }

  function Width(p: Piece): nat {
    match p
    case Mark(_) => 1
    case Key(raw) => |raw| + 3
    case Quoted(raw) => |raw| + 2
  }

  lemma PieceShape(p: Piece, rest: string)
    ensures |PieceText(p)| == Width(p) && StartsWithPiece(PieceText(p) + rest, p)
  {
    var t := PieceText(p) + rest;
    match p
    case Mark(c) =>
    case Key(raw) =>
      assert t[0] == '\"' && t[|raw| + 1] == '\"' && t[|raw| + 2] == ':';
      assert forall h :: 0 <= h < |raw| ==> t[1 + h] == raw[h];
    case Quoted(raw) =>
      assert t[0] == '\"' && t[|raw| + 1] == '\"';
      assert forall h :: 0 <= h < |raw| ==> t[1 + h] == raw[h];
  }

  /** Where the characters of the first piece and of the rest sit in the rendered text. */
  lemma RenderSplit(ps: seq<Piece>)
    requires ps != []
    ensures StartsWithPiece(Render(ps), ps[0])
    ensures |Render(ps)| == Width(ps[0]) + |Render(ps[1..])|
    ensures forall h :: 0 <= h < |Render(ps[1..])| ==> Render(ps[1..])[h] == Render(ps)[Width(ps[0]) + h]
  {
    PieceShape(ps[0], Render(ps[1..]));
  }

  /** `t` is the text of the pieces, said piece by piece: where each starts, and what it starts with. */
  predicate Layout(ps: seq<Piece>, t: string) {
    if ps == [] then t == ""
    else |t| >= Width(ps[0]) && StartsWithPiece(t, ps[0]) && Layout(ps[1..], t[Width(ps[0])..])
  }

  lemma {:induction false} RenderIsLayout(ps: seq<Piece>)
    ensures Layout(ps, Render(ps))
  {
    if ps != [] {
      PieceShape(ps[0], Render(ps[1..]));
      RenderIsLayout(ps[1..]);
      assert Render(ps)[Width(ps[0])..] == Render(ps[1..]);
    }
  }

  lemma {:induction false} MarksBeforeFirstQuote(ps: seq<Piece>, t: string, i: nat)
    requires AllPrintable(ps) && Layout(ps, t)
    requires i < |t| && forall h :: 0 <= h <= i ==> t[h] != '\"'
    ensures t[i] != 'k' && t[i] != ':'
  {
    assert t[0] != '\"';
    assert ps[0].Mark? && Printable(ps[0]);
    if i > 0 {
      assert forall h :: 0 <= h < |t| - 1 ==> t[1..][h] == t[h + 1];
      MarksBeforeFirstQuote(ps[1..], t[1..], i - 1);
    }
  }

  /** A literal that reads `id"` from its opening quote on is `id`. */
  lemma LiteralIsId(t: string, raw: string, id: string)
    requires WellEscaped(raw) && StartsWithLiteral(t, raw) && AllDigits(id)
    requires |id| + 2 <= |t| && t[1 + |id|] == '\"' && forall h :: 0 <= h < |id| ==> t[1 + h] == id[h]
    ensures raw == id
  {
    var atClose, atLast := if |raw| < |id| then id[|raw|] else '0', if |id| > 0 then id[|id| - 1] else '0';
    assert IsDigit(atClose) && IsDigit(atLast);
    if |id| < |raw| {
      QuoteFollowsBackslash(raw, |id|);
    }
    assert |raw| == |id|;
  }

  lemma ValueAfterKey(ps: seq<Piece>, t: string, id: string)
    requires AllPrintable(ps) && Layout(ps, t) && AllDigits(id)
    requires |id| + 2 <= |t| && t[0] == '\"' && t[1 + |id|] == '\"' && forall h :: 0 <= h < |id| ==> t[1 + h] == id[h]
    ensures |ps| > 0 && !ps[0].Mark? && ps[0].raw == id
  {
    assert Printable(ps[0]) && !ps[0].Mark?;
    if ps[0].Key? {
      PlainIsWellEscaped(ps[0].raw);
    }
    LiteralIsId(t, ps[0].raw, id);
  }

  /** Inside a literal, the text `"taskId"` can only end at the literal's own closing quote. */
  lemma ClosesAtTaskId(t: string, raw: string, k: nat)
    requires WellEscaped(raw) && StartsWithLiteral(t, raw) && k <= |raw|
    requires OccursAt(t, k, "\"taskId\"")
    ensures |raw| == k + 6 && t[0] == t[k] == '\"'
    ensures k == 0 ==> raw == "taskId"
    ensures k > 0 ==> raw[k - 1] == '\"'
  {
    OccursByChars(t, k, "\"taskId\"");
    var w := "\"taskId\"";
    assert forall h :: 0 <= h < 8 ==> t[k + h] == w[h];
    assert t[k + 0] == '\"' && t[k + 6] == 'd' && t[k + 7] == '\"';
    if k + 6 < |raw| {
      assert raw[k + 6] == t[1 + (k + 6)] && raw[k + 5] == t[1 + (k + 5)];
      QuoteFollowsBackslash(raw, k + 6);
    }
    assert |raw| == k + 6;
    assert k > 0 ==> raw[k - 1] == t[1 + (k - 1)];
    if k == 0 {
      assert forall i :: 0 <= i < 6 ==> raw[i] == t[1 + i] == w[1 + i] == "taskId"[i];
    }
  }

  lemma PatternParts(t: string, k: nat, id: string)
    requires OccursAt(t, k, AckPattern(id))
    ensures k + |id| + 11 <= |t|
    ensures OccursAt(t, k, "\"taskId\"") && t[k] == '\"' && t[k + 8] == ':' && t[k + 9] == '\"'
    ensures (forall h :: 0 <= h < |id| ==> t[k + 10 + h] == id[h]) && t[k + 10 + |id|] == '\"'
  {
    var p := AckPattern(id);
    assert |p| == |id| + 11;
    OccursByChars(t, k, p);
    OccursByChars(t, k, "\"taskId\"");
    assert forall h :: 0 <= h < 8 ==> p[h] == "\"taskId\""[h];
    assert p[0] == '\"' && p[8] == ':' && p[9] == '\"' && p[10 + |id|] == '\"';
    assert forall h :: 0 <= h < |id| ==> p[10 + h] == id[h];
    assert t[k + 0] == '\"';
  }

  lemma TaskIdLetters(t: string, k: nat)
    requires OccursAt(t, k, "\"taskId\"")
    ensures t[k] == '\"' && t[k + 1] == 't' && t[k + 2] == 'a' && t[k + 3] == 's' && t[k + 4] == 'k'
  {
    var w := "\"taskId\"";
    OccursByChars(t, k, w);
    assert w[0] == '\"' && w[1] == 't' && w[2] == 'a' && w[3] == 's' && w[4] == 'k';
    assert t[k + 0] == w[0];
  }

  /** A hit that starts behind the inside of the first literal starts at its closing quote. */
  lemma HitAtClosingQuote(t: string, p: Piece, k: nat)
    requires !p.Mark? && StartsWithPiece(t, p) && |p.raw| < k < Width(p) <= |t| && OccursAt(t, k, "\"taskId\"")
    ensures var rest := t[Width(p)..];
            |rest| > 3 && rest[3] == 'k' && forall h :: 0 <= h <= 3 ==> rest[h] != '\"'
  {
    TaskIdLetters(t, k);
    assert p.Quoted? && k + 1 == Width(p);
  }

  /** A hit cannot start at a closing quote: `taskId` would have to be marks. */
  lemma NoHitAtClosingQuote(ps: seq<Piece>, t: string, k: nat)
    requires AllPrintable(ps) && ps != [] && Layout(ps, t) && !ps[0].Mark?
    requires OccursAt(t, k, "\"taskId\"") && k < Width(ps[0])
    ensures k <= |ps[0].raw|
  {
    if k > |ps[0].raw| {
      HitAtClosingQuote(t, ps[0], k);
      PrintableTail(ps);
      MarksBeforeFirstQuote(ps[1..], t[Width(ps[0])..], 3);
    }
  }

  /** A hit inside the first literal of `t`: the literal is the key `taskId`, and `"id"` follows it. */
  lemma HitSpansKey(t: string, p: Piece, k: nat, id: string)
    requires Printable(p) && !p.Mark? && StartsWithPiece(t, p) && k <= |p.raw| && Width(p) <= |t|
    requires OccursAt(t, k, AckPattern(id))
    requires |t| > Width(p) ==> t[Width(p)] != ':'
    ensures p == Key("taskId") && |id| + 11 <= |t| && t[9] == '\"' && t[10 + |id|] == '\"'
    ensures forall h :: 0 <= h < |id| ==> t[10 + h] == id[h]
  {
    PatternParts(t, k, id);
    if p.Key? {
      PlainIsWellEscaped(p.raw);
    }
    ClosesAtTaskId(t, p.raw, k);
    assert p.Key? && k == 0;
  }

  lemma NoColonFirst(ps: seq<Piece>, t: string)
    requires AllPrintable(ps) && Layout(ps, t)
    ensures |t| > 0 ==> t[0] != ':'
  {
    assert ps != [] ==> Printable(ps[0]);
  }

  lemma HitInFirstPiece(ps: seq<Piece>, t: string, k: nat, id: string)
    requires AllPrintable(ps) && AllDigits(id) && ps != [] && Layout(ps, t)
    requires OccursAt(t, k, AckPattern(id)) && k < Width(ps[0])
    ensures TaskIdField(ps, 0, id)
  {
    var rest := t[Width(ps[0])..];
    assert Printable(ps[0]);
    PatternParts(t, k, id);
    PrintableTail(ps);
    NoHitAtClosingQuote(ps, t, k);
    NoColonFirst(ps[1..], rest);
    HitSpansKey(t, ps[0], k, id);
    ValueAfterKey(ps[1..], rest, id);
  }

  /** Wherever the search hits, the key `taskId` is followed by exactly the literal `id`. */
  lemma {:induction false} HitIsField(ps: seq<Piece>, t: string, k: nat, id: string) returns (j: nat)
    requires AllPrintable(ps) && AllDigits(id) && Layout(ps, t) && OccursAt(t, k, AckPattern(id))
    ensures TaskIdField(ps, j, id)
    decreases |ps|
  {
    if k < Width(ps[0]) {
      HitInFirstPiece(ps, t, k, id);
      j := 0;
    } else {
      var w := Width(ps[0]);
      PrintableTail(ps);
      OccursInTail(t, w, k, AckPattern(id));
      j := HitIsField(ps[1..], t[w..], k - w, id);
      assert ps[1..][j] == ps[j + 1] && ps[1..][j + 1] == ps[j + 2];
      j := j + 1;
    }
  }

  lemma OccursInTail(t: string, w: nat, k: nat, pattern: string)
    requires w <= k && OccursAt(t, k, pattern)
    ensures OccursAt(t[w..], k - w, pattern)
  {
    assert t[w..][k - w..k - w + |pattern|] == t[k..k + |pattern|];
  }

  lemma PrintableTail(ps: seq<Piece>)
    requires ps != [] && AllPrintable(ps)
    ensures AllPrintable(ps[1..])
  {
    assert forall i :: 0 <= i < |ps| - 1 ==> ps[1..][i] == ps[i + 1];
  }

  // ---------------------------------------------------------------- from pieces back to members

  lemma KeyNamesArePlain(f: Field)
    ensures PlainKey(KeyName(f)) && (KeyName(f) == "taskId" ==> f.TaskId?)
  {
    assert |"taskId"| == 6 && "taskId"[0] == 't';
  }

  lemma {:induction false} ElemPiecesPrintable(elems: seq<string>, spaced: bool)
    ensures AllPrintable(ElemPieces(elems, spaced))
    ensures forall i :: 0 <= i < |ElemPieces(elems, spaced)| ==> !ElemPieces(elems, spaced)[i].Key?
  {
    if elems != [] {
      EscapeIsWellEscaped(elems[0]);
      ElemPiecesPrintable(elems[1..], spaced);
    }
  }

  lemma ValuePiecesPrintable(v: Value, spaced: bool)
    ensures AllPrintable(ValuePieces(v, spaced)) && |ValuePieces(v, spaced)| > 0
    ensures forall i :: 0 <= i < |ValuePieces(v, spaced)| ==> !ValuePieces(v, spaced)[i].Key?
    ensures ValuePieces(v, spaced)[0].Quoted? ==> v.Str? && ValuePieces(v, spaced)[0].raw == Escape(v.s)
  {
    match v
    case Str(s) => EscapeIsWellEscaped(s);
    case Num(n) =>
    case Bool(b) =>
    case Arr(elems) => ElemPiecesPrintable(elems, spaced);
  }

  lemma {:induction false} MemberPiecesPrintable(ms: seq<Member>, spaced: bool)
    ensures AllPrintable(MemberPieces(ms, spaced))
  {
    if ms != [] {
      KeyNamesArePlain(ms[0].field);
      ValuePiecesPrintable(ms[0].value, spaced);
      MemberPiecesPrintable(ms[1..], spaced);
    }
  }

  lemma SkipToRest(all: seq<Piece>, head: seq<Piece>, sep: seq<Piece>, rest: seq<Piece>, j: nat) returns (k: nat)
    requires all == head + sep + rest && forall i :: 0 < i < |head| ==> !head[i].Key?
    requires forall i :: 0 <= i < |sep| ==> !sep[i].Key?
    requires 0 < j && j + 1 < |all| && all[j].Key?
    ensures k + 1 < |rest| && rest[k] == all[j] && rest[k + 1] == all[j + 1]
  {
    k := j - |head| - |sep|;
  }

  /** `key` and `value` are the pieces of a member that holds a string. */
  predicate IsField(m: Member, key: Piece, value: Piece) {
    key == Key(KeyName(m.field)) && m.value.Str? && !value.Mark? && value.raw == Escape(m.value.s)
  }

  lemma FirstField(ms: seq<Member>, spaced: bool)
    requires |ms| > 0 && |MemberPieces(ms, spaced)| > 1 && !MemberPieces(ms, spaced)[1].Mark?
    ensures IsField(ms[0], MemberPieces(ms, spaced)[0], MemberPieces(ms, spaced)[1])
  {
    ValuePiecesPrintable(ms[0].value, spaced);
    assert OneMember(ms[0], spaced)[1] == ValuePieces(ms[0].value, spaced)[0];
  }

  /** A key piece that is not the first belongs to one of the later members. */
  lemma FieldInRest(ms: seq<Member>, spaced: bool, j: nat) returns (k: nat)
    requires 0 < j && j + 1 < |MemberPieces(ms, spaced)| && MemberPieces(ms, spaced)[j].Key?
    ensures |ms| > 0 && k + 1 < |MemberPieces(ms[1..], spaced)|
    ensures MemberPieces(ms[1..], spaced)[k] == MemberPieces(ms, spaced)[j]
    ensures MemberPieces(ms[1..], spaced)[k + 1] == MemberPieces(ms, spaced)[j + 1]
  {
    OneMemberHasOneKey(ms[0], spaced);
    k := SkipToRest(MemberPieces(ms, spaced), OneMember(ms[0], spaced), Separator(|ms| > 1, spaced),
                    MemberPieces(ms[1..], spaced), j);
  }

  lemma OneMemberHasOneKey(m: Member, spaced: bool)
    ensures forall i :: 0 < i < |OneMember(m, spaced)| ==> !OneMember(m, spaced)[i].Key?
  {
    ValuePiecesPrintable(m.value, spaced);
    assert forall i :: 0 < i < |OneMember(m, spaced)| ==> OneMember(m, spaced)[i] == ValuePieces(m.value, spaced)[i - 1];
  }

  /** A key piece with a literal right behind it is a member that holds a string. */
  lemma {:induction false} FieldIsMember(ms: seq<Member>, spaced: bool, j: nat) returns (m: Member)
    requires j + 1 < |MemberPieces(ms, spaced)|
    requires MemberPieces(ms, spaced)[j].Key? && !MemberPieces(ms, spaced)[j + 1].Mark?
    ensures m in ms && IsField(m, MemberPieces(ms, spaced)[j], MemberPieces(ms, spaced)[j + 1])
    decreases |ms|
  {
    if j == 0 {
      FirstField(ms, spaced);
      m := ms[0];
    } else {
      var k := FieldInRest(ms, spaced, j);
      m := FieldIsMember(ms[1..], spaced, k);
    }
  }

  lemma KeyThenValue(t: string, t1: string, t2: string, id: string)
    requires |t| == 1 + |t1| && forall h :: 0 <= h < |t1| ==> t1[h] == t[1 + h]
    requires |t1| == 9 + |t2| && forall h :: 0 <= h < |t2| ==> t2[h] == t1[9 + h]
    requires StartsWithPiece(t1, Key("taskId")) && StartsWithLiteral(t2, id)
    ensures OccursAt(t, 1, AckPattern(id))
  {
    var p := AckPattern(id);
    assert p[0] == '\"' && p[7] == '\"' && p[8] == ':' && p[9] == '\"' && p[10 + |id|] == '\"' && |p| == |id| + 11;
    assert t2[|id| + 1] == t1[9 + (|id| + 1)] && t2[0] == t1[9 + 0];
    forall h | 0 <= h < |p|
      ensures t[1 + h] == p[h]
    {
      assert t1[h] == t[1 + h];
      if 10 <= h < 10 + |id| {
        assert t2[1 + (h - 10)] == id[h - 10] == p[h];
        assert t2[h - 9] == t1[9 + (h - 9)];
      } else if 1 <= h < 7 {
        assert t1[1 + (h - 1)] == "taskId"[h - 1] == p[h];
      }
    }
  }

  /** Conversely, a first member `taskId` with string value `id` is found by the search. */
  lemma FirstMemberIsHit(ps: seq<Piece>, id: string)
    requires |ps| >= 3 && ps[0] == Mark('{') && ps[1] == Key("taskId") && ps[2] == Quoted(id)
    ensures Contains(Render(ps), AckPattern(id))
  {
    RenderSplit(ps);
    RenderSplit(ps[1..]);
    RenderSplit(ps[1..][1..]);
    KeyThenValue(Render(ps), Render(ps[1..]), Render(ps[1..][1..]), id);
  }

  lemma TaskIdIsFound(ms: seq<Member>, spaced: bool, id: string)
    requires AllDigits(id) && |ms| > 0 && ms[0] == Member(TaskId, Str(id))
    ensures Contains(ObjectText(ms, spaced), AckPattern(id))
  {
    EscapeKeepsDigits(id);
    var mps := MemberPieces(ms, spaced);
    assert OneMember(ms[0], spaced) == [Key("taskId"), Quoted(id)];
    FirstMemberIsHit(Marks("{") + mps + Marks("}"), id);
  }

  lemma HitHasMember(ms: seq<Member>, spaced: bool, id: string) returns (m: Member)
    requires AllDigits(id) && Contains(ObjectText(ms, spaced), AckPattern(id))
    ensures m in ms && m.field.TaskId? && m.value.Str? && Escape(m.value.s) == id
  {
    var mps := MemberPieces(ms, spaced);
    MemberPiecesPrintable(ms, spaced);
    var j := HitInObject(mps, id);
    m := FieldIsMember(ms, spaced, j);
    KeyNamesArePlain(m.field);
  }

  /** The braces around the members are no part of a hit. */
  lemma HitInObject(mps: seq<Piece>, id: string) returns (j: nat)
    requires AllPrintable(mps) && AllDigits(id) && Contains(Render(Marks("{") + mps + Marks("}")), AckPattern(id))
    ensures TaskIdField(mps, j, id)
  {
    var ps := Marks("{") + mps + Marks("}");
    var k: nat :| OccursAt(Render(ps), k, AckPattern(id));
    RenderIsLayout(ps);
    assert forall i :: 0 <= i < |mps| ==> ps[i + 1] == mps[i];
    var i := HitIsField(ps, Render(ps), k, id);
    j := i - 1;
  }

  lemma HitNamesTheTask(r: FetchRequest, spaced: bool, id: string)
    requires AllDigits(id) && Contains(RequestText(r, spaced), AckPattern(id))
    ensures r.taskId == id
  {
    var m := HitHasMember(Members(r), spaced, id);
    EscapeOfPlain(r.taskId);
  }

  /**
  Acking by text is acking by id: the text of a request contains `"taskId":"<id>"` exactly when its
  task id is that decimal id, whatever the keyword and the other fields hold.
  */
  lemma AckByTextIsAckById(r: FetchRequest, spaced: bool, id: string)
    requires AllDigits(id) && id != ""
    ensures Contains(RequestText(r, spaced), AckPattern(id)) <==> r.taskId == id
  {
    if r.taskId == id {
      assert Members(r)[0] == Member(TaskId, Str(id));
      TaskIdIsFound(Members(r), spaced, id);
    } else if Contains(RequestText(r, spaced), AckPattern(id)) {
      HitNamesTheTask(r, spaced, id);
    }
  }
}
