/**
Reading a queued task back from its JSON text, as PopTask and the janitors do. What is read is the request that was
written, so entries with the same text are the same request, and deleting by text is deleting by request.
*/
module TaskReader {
  import opened Decimal
  import opened TaskText

  datatype Option<T> = None | Some(value: T)

  // ---------------------------------------------------------------- from text to pieces

  /** The inside of a string literal, section 7 of RFC 8259. */
  function Unescaped(raw: string): string
    decreases |raw|
  {
    if raw == "" then ""
    else if raw[0] != '\\' || |raw| < 2 then [raw[0]] + Unescaped(raw[1..])
    else if raw[1] == 'u' && |raw| >= 6 then [CodePoint(raw[4], raw[5])] + Unescaped(raw[6..])
    else [Escaped(raw[1])] + Unescaped(raw[2..])
  }

  function Escaped(c: char): char {
    if c == 'n' then '\n' else if c == 'r' then '\r' else if c == 't' then '\t'
    else if c == 'b' then 8 as char else if c == 'f' then 12 as char else c
  }

  /** The control character with these two last hexadecimal digits. */
  function CodePoint(hi: char, lo: char): char {
    (16 * HexDigit(hi) + HexDigit(lo)) as char
  }

  function HexDigit(c: char): (n: nat)
    ensures n < 16
  {
    if '0' <= c <= '9' then c as int - '0' as int
    else if 'a' <= c <= 'f' then c as int - 'a' as int + 10
    else 0
  }

  lemma {:induction false} EscapeReadsBack(s: string)
    ensures Unescaped(Escape(s)) == s
  {
    if s != "" {
      EscapeReadsBack(s[1..]);
      CharReadsBack(s[0], Escape(s[1..]));
    }
  }

  lemma CharReadsBack(c: char, rest: string)
    ensures Unescaped(EscapeChar(c) + rest) == [c] + Unescaped(rest)
  {
    var e := EscapeChar(c);
    if c as int < 32 && |e| == 6 {
      assert (e + rest)[6..] == rest;
      assert HexDigit(Hex(c as int / 16)) == c as int / 16 && HexDigit(Hex(c as int % 16)) == c as int % 16;
    } else if |e| == 2 {
      assert (e + rest)[2..] == rest;
    } else {
      assert (e + rest)[1..] == rest;
    }
  }

  /** Behind an opening quote: the place of the quote that closes the literal. */
  function ClosingQuote(t: string): (k: nat)
    ensures k <= |t|
    decreases |t|
  {
    if t == "" || t[0] == '\"' then 0
    else if t[0] == '\\' && |t| >= 2 then 2 + ClosingQuote(t[2..])
    else 1 + ClosingQuote(t[1..])
  }

  lemma {:induction false} ClosesBehind(raw: string, rest: string)
    requires WellEscaped(raw)
    ensures ClosingQuote(raw + ['\"'] + rest) == |raw|
    decreases |raw|
  {
    var t := raw + ['\"'] + rest;
    if raw != "" {
      var n := if raw[0] == '\\' then 2 else 1;
      assert t[n..] == raw[n..] + ['\"'] + rest;
      ClosesBehind(raw[n..], rest);
    }
  }

  /** The pieces of a text: names, literals and single characters. */
  function Pieces(t: string): seq<Piece>
    decreases |t|
  {
    if t == "" then []
    else if t[0] != '\"' then [Mark(t[0])] + Pieces(t[1..])
    else
      var k := ClosingQuote(t[1..]);
      var raw, rest := t[1..][..k], t[1..][k..];
      if |rest| >= 2 && rest[1] == ':' then [Key(raw)] + Pieces(rest[2..])
      else if rest != "" then [Quoted(raw)] + Pieces(rest[1..])
      else [Quoted(raw)]
  }

  lemma LiteralCut(t: string, raw: string, rest: string)
    requires t == raw + rest
    ensures t[..|raw|] == raw && t[|raw|..] == rest
  {
  }

  lemma PiecesStep(t: string, raw: string, rest: string)
    requires t != "" && t[0] == '\"' && ClosingQuote(t[1..]) == |raw| && t[1..][..|raw|] == raw && t[1..][|raw|..] == rest
    ensures Pieces(t) ==
              if |rest| >= 2 && rest[1] == ':' then [Key(raw)] + Pieces(rest[2..])
              else if rest != "" then [Quoted(raw)] + Pieces(rest[1..])
              else [Quoted(raw)]
  {
  }

  /** A literal and what follows its closing quote. */
  lemma LiteralReads(raw: string, rest: string)
    requires WellEscaped(raw)
    ensures Pieces(['\"'] + (raw + (['\"'] + rest))) ==
              if rest != "" && rest[0] == ':' then [Key(raw)] + Pieces(rest[1..]) else [Quoted(raw)] + Pieces(rest)
  {
    var u, tail := raw + (['\"'] + rest), ['\"'] + rest;
    var t := ['\"'] + u;
    assert t[1..] == u;
    assert u == raw + ['\"'] + rest;
    ClosesBehind(raw, rest);
    LiteralCut(u, raw, tail);
    PiecesStep(t, raw, tail);
    assert tail[1..] == rest && (rest != "" ==> tail[2..] == rest[1..]);
  }

  lemma PieceReads(p: Piece, rest: string)
    requires Printable(p) && (rest != "" ==> rest[0] != ':')
    ensures Pieces(PieceText(p) + rest) == [p] + Pieces(rest)
  {
    match p
    case Mark(c) => MarkReads(c, rest);
    case Key(raw) => KeyReads(raw, rest);
    case Quoted(raw) => QuotedReads(raw, rest);
  }

  lemma MarkReads(c: char, rest: string)
    requires c != '\"'
    ensures Pieces([c] + rest) == [Mark(c)] + Pieces(rest)
  {
    assert ([c] + rest)[1..] == rest;
  }

  lemma JoinRight(a: string, b: string, c: string, d: string)
    ensures a + b + c + d == a + (b + (c + d))
  {
  }

  lemma KeyAsLiteral(raw: string, rest: string)
    ensures "\"" + raw + "\":" + rest == ['\"'] + (raw + (['\"'] + ([':'] + rest)))
  {
    JoinRight("\"", raw, "\":", rest);
    assert "\":" + rest == ['\"'] + ([':'] + rest);
  }

  lemma LiteralBeforeColon(raw: string, rest: string)
    requires WellEscaped(raw)
    ensures Pieces(['\"'] + (raw + (['\"'] + ([':'] + rest)))) == [Key(raw)] + Pieces(rest)
  {
    LiteralReads(raw, [':'] + rest);
    assert ([':'] + rest)[1..] == rest;
  }

  lemma KeyReads(raw: string, rest: string)
    requires PlainKey(raw)
    ensures Pieces("\"" + raw + "\":" + rest) == [Key(raw)] + Pieces(rest)
  {
    PlainIsWellEscaped(raw);
    KeyAsLiteral(raw, rest);
    LiteralBeforeColon(raw, rest);
  }

  lemma QuotedReads(raw: string, rest: string)
    requires WellEscaped(raw) && (rest != "" ==> rest[0] != ':')
    ensures Pieces("\"" + raw + "\"" + rest) == [Quoted(raw)] + Pieces(rest)
  {
    LiteralReads(raw, rest);
    JoinRight("\"", raw, "\"", rest);
  }

  lemma {:induction false} PiecesReadBack(ps: seq<Piece>)
    requires AllPrintable(ps)
    ensures Pieces(Render(ps)) == ps
  {
    if ps != [] {
      PrintableTail(ps);
      PiecesReadBack(ps[1..]);
      RenderIsLayout(ps[1..]);
      NoColonFirst(ps[1..], Render(ps[1..]));
      assert Printable(ps[0]);
      PieceReads(ps[0], Render(ps[1..]));
    }
  }

  // ---------------------------------------------------------------- from pieces to members

  /** A name with all pieces up to the next name. */
  datatype Raw = Raw(name: string, pieces: seq<Piece>)

  function UntilKey(ps: seq<Piece>): (n: nat)
    ensures n <= |ps|
  {
    if ps == [] || ps[0].Key? then 0 else 1 + UntilKey(ps[1..])
  }

  function RawMembers(ps: seq<Piece>): seq<Raw>
    decreases |ps|
  {
    if ps == [] then []
    else if !ps[0].Key? then RawMembers(ps[1..])
    else
      var n := UntilKey(ps[1..]);
      [Raw(ps[0].raw, ps[1..][..n])] + RawMembers(ps[1..][n..])
  }

  lemma {:induction false} UntilNextKey(a: seq<Piece>, rest: seq<Piece>)
    requires (forall i :: 0 <= i < |a| ==> !a[i].Key?) && (rest == [] || rest[0].Key?)
    ensures UntilKey(a + rest) == |a| && (a + rest)[..|a|] == a && (a + rest)[|a|..] == rest
  {
    if a == [] {
      assert a + rest == rest;
    } else {
      assert (a + rest)[1..] == a[1..] + rest;
      UntilNextKey(a[1..], rest);
    }
  }

  lemma RawMemberReads(name: string, a: seq<Piece>, rest: seq<Piece>)
    requires (forall i :: 0 <= i < |a| ==> !a[i].Key?) && (rest == [] || rest[0].Key?)
    ensures RawMembers([Key(name)] + a + rest) == [Raw(name, a)] + RawMembers(rest)
  {
    var ps := [Key(name)] + a + rest;
    assert ps[1..] == a + rest;
    UntilNextKey(a, rest);
  }

  /** What stands between a value and the next name, or the end of the object. */
  function Behind(more: bool, spaced: bool): seq<Piece> {
    if more then Separator(true, spaced) else Marks("}")
  }

  function RawForms(ms: seq<Member>, spaced: bool): seq<Raw> {
    if ms == [] then []
    else [Raw(KeyName(ms[0].field), ValuePieces(ms[0].value, spaced) + Behind(|ms| > 1, spaced))] + RawForms(ms[1..], spaced)
  }

  lemma Regroup(key: seq<Piece>, value: seq<Piece>, sep: seq<Piece>, rest: seq<Piece>, end: seq<Piece>)
    ensures key + value + sep + rest + end == key + (value + sep) + (rest + end)
    ensures key + value + [] + [] + end == key + (value + end) + []
  {
  }

  lemma NoKeysInside(v: Value, more: bool, spaced: bool)
    ensures var a := ValuePieces(v, spaced) + Behind(more, spaced);
            forall i :: 0 <= i < |a| ==> !a[i].Key?
  {
    ValuePiecesPrintable(v, spaced);
    assert forall i :: 0 <= i < |Behind(more, spaced)| ==> Behind(more, spaced)[i].Mark?;
  }

  lemma StartsWithKey(ms: seq<Member>, spaced: bool, end: seq<Piece>)
    requires ms != []
    ensures |MemberPieces(ms, spaced)| > 0 && (MemberPieces(ms, spaced) + end)[0].Key?
  {
  }

  lemma MembersUnfold(ms: seq<Member>, spaced: bool)
    requires ms != []
    ensures MemberPieces(ms, spaced) + Marks("}") ==
              [Key(KeyName(ms[0].field))] + (ValuePieces(ms[0].value, spaced) + Behind(|ms| > 1, spaced))
              + if |ms| > 1 then MemberPieces(ms[1..], spaced) + Marks("}") else []
  {
    Regroup([Key(KeyName(ms[0].field))], ValuePieces(ms[0].value, spaced), Separator(|ms| > 1, spaced),
            MemberPieces(ms[1..], spaced), Marks("}"));
  }

  lemma {:induction false} MembersSplit(ms: seq<Member>, spaced: bool)
    requires ms != []
    ensures RawMembers(MemberPieces(ms, spaced) + Marks("}")) == RawForms(ms, spaced)
  {
    var a := ValuePieces(ms[0].value, spaced) + Behind(|ms| > 1, spaced);
    var rest := if |ms| > 1 then MemberPieces(ms[1..], spaced) + Marks("}") else [];
    MembersUnfold(ms, spaced);
    NoKeysInside(ms[0].value, |ms| > 1, spaced);
    if |ms| > 1 {
      StartsWithKey(ms[1..], spaced, Marks("}"));
      MembersSplit(ms[1..], spaced);
    }
    RawMemberReads(KeyName(ms[0].field), a, rest);
  }

  // ---------------------------------------------------------------- from pieces to values

  /** The digits and minus signs in front. */
  function NumberText(ps: seq<Piece>): string {
    if ps != [] && ps[0].Mark? && (IsDigit(ps[0].c) || ps[0].c == '-') then [ps[0].c] + NumberText(ps[1..]) else ""
  }

  function IntOf(s: string): int {
    if AllDigits(s) then Decimal.Value(s)
    else if s[0] == '-' && AllDigits(s[1..]) then 0 - Decimal.Value(s[1..])
    else 0
  }

  function Literals(ps: seq<Piece>): seq<string> {
    if ps == [] then [] else (if ps[0].Quoted? then [Unescaped(ps[0].raw)] else []) + Literals(ps[1..])
  }

  function ReadValue(ps: seq<Piece>): Value {
    if ps == [] then Num(0)
    else if !ps[0].Mark? then Str(Unescaped(ps[0].raw))
    else if ps[0].c == '[' then Arr(Literals(ps))
    else if ps[0].c == 't' || ps[0].c == 'f' then Bool(ps[0].c == 't')
    else Num(IntOf(NumberText(ps)))
  }

  lemma IntReadsBack(n: int)
    ensures IntOf(Numeral(n)) == n
  {
    if n >= 0 {
      DigitsRoundTrip(n);
    } else {
      DigitsRoundTrip(-n);
      assert Numeral(n)[1..] == Digits(-n);
    }
  }

  lemma {:induction false} NumberReads(s: string, tail: seq<Piece>)
    requires forall i :: 0 <= i < |s| ==> IsDigit(s[i]) || s[i] == '-'
    requires tail != [] && tail[0].Mark? && !IsDigit(tail[0].c) && tail[0].c != '-'
    ensures NumberText(Marks(s) + tail) == s
  {
    if s == "" {
      assert Marks(s) + tail == tail;
    } else {
      assert (Marks(s) + tail)[1..] == Marks(s[1..]) + tail;
      NumberReads(s[1..], tail);
    }
  }

  lemma {:induction false} LiteralsOfConcat(a: seq<Piece>, b: seq<Piece>)
    ensures Literals(a + b) == Literals(a) + Literals(b)
  {
    if a == [] {
      assert a + b == b;
    } else {
      var head := if a[0].Quoted? then [Unescaped(a[0].raw)] else [];
      assert (a + b)[1..] == a[1..] + b;
      LiteralsOfConcat(a[1..], b);
      assert head + (Literals(a[1..]) + Literals(b)) == (head + Literals(a[1..])) + Literals(b);
    }
  }

  lemma {:induction false} NoLiterals(a: seq<Piece>)
    requires forall i :: 0 <= i < |a| ==> a[i].Mark?
    ensures Literals(a) == []
  {
    if a != [] {
      NoLiterals(a[1..]);
    }
  }

  lemma {:induction false} ElemsReadBack(elems: seq<string>, spaced: bool)
    ensures Literals(ElemPieces(elems, spaced)) == elems
  {
    if elems != [] {
      var head, sep, rest := [Quoted(Escape(elems[0]))], Separator(|elems| > 1, spaced), ElemPieces(elems[1..], spaced);
      ElemsReadBack(elems[1..], spaced);
      EscapeReadsBack(elems[0]);
      LiteralsOfConcat(head + sep, rest);
      LiteralsOfConcat(head, sep);
      NoLiterals(sep);
      assert head[1..] == [];
    }
  }

  lemma ArrayReads(elems: seq<string>, spaced: bool, tail: seq<Piece>)
    requires forall i :: 0 <= i < |tail| ==> tail[i].Mark?
    ensures ReadValue(ValuePieces(Arr(elems), spaced) + tail) == Arr(elems)
  {
    var open, inner, close := Marks("["), ElemPieces(elems, spaced), Marks("]");
    LiteralsOfConcat(open + inner + close, tail);
    LiteralsOfConcat(open + inner, close);
    LiteralsOfConcat(open, inner);
    NoLiterals(open);
    NoLiterals(close);
    NoLiterals(tail);
    ElemsReadBack(elems, spaced);
    assert (open + inner + close + tail)[0] == Mark('[');
  }

  lemma NumReads(n: int, tail: seq<Piece>)
    requires tail != [] && tail[0].Mark? && !IsDigit(tail[0].c) && tail[0].c != '-'
    ensures ReadValue(Marks(Numeral(n)) + tail) == Num(n)
  {
    var s := Numeral(n);
    IntReadsBack(n);
    assert forall i :: 0 <= i < |s| ==> IsDigit(s[i]) || s[i] == '-';
    NumberReads(s, tail);
    assert (Marks(s) + tail)[0] == Mark(s[0]);
  }

  lemma BoolReads(b: bool, tail: seq<Piece>)
    ensures ReadValue(Marks(if b then "true" else "false") + tail) == Bool(b)
  {
    var s := if b then "true" else "false";
    assert (Marks(s) + tail)[0] == Mark(s[0]);
  }

  lemma StrReads(s: string, tail: seq<Piece>)
    ensures ReadValue([Quoted(Escape(s))] + tail) == Str(s)
  {
    EscapeReadsBack(s);
  }

  lemma ValueReadsBack(v: Value, spaced: bool, more: bool)
    ensures ReadValue(ValuePieces(v, spaced) + Behind(more, spaced)) == v
  {
    var tail := Behind(more, spaced);
    assert tail[0] == Mark(if more then ',' else '}') && forall i :: 0 <= i < |tail| ==> tail[i].Mark?;
    match v
    case Str(s) => StrReads(s, tail);
    case Num(n) => NumReads(n, tail);
    case Bool(b) => BoolReads(b, tail);
    case Arr(elems) => ArrayReads(elems, spaced, tail);
  }

  // ---------------------------------------------------------------- the object

  /** A name with its value. */
  datatype NameValue = NameValue(name: string, value: Value)

  function ReadRaws(raws: seq<Raw>): seq<NameValue> {
    if raws == [] then [] else [NameValue(raws[0].name, ReadValue(raws[0].pieces))] + ReadRaws(raws[1..])
  }

  function ReadObject(t: string): seq<NameValue> {
    ReadRaws(RawMembers(Pieces(t)))
  }

  function NamesAndValues(ms: seq<Member>): seq<NameValue> {
    if ms == [] then [] else [NameValue(KeyName(ms[0].field), ms[0].value)] + NamesAndValues(ms[1..])
  }

  lemma {:induction false} RawsReadBack(ms: seq<Member>, spaced: bool)
    ensures ReadRaws(RawForms(ms, spaced)) == NamesAndValues(ms)
  {
    if ms != [] {
      RawsReadBack(ms[1..], spaced);
      ValueReadsBack(ms[0].value, spaced, |ms| > 1);
    }
  }

  lemma ObjectPiecesPrintable(ms: seq<Member>, spaced: bool)
    ensures AllPrintable(Marks("{") + MemberPieces(ms, spaced) + Marks("}"))
  {
    MemberPiecesPrintable(ms, spaced);
    var mps := MemberPieces(ms, spaced);
    var ps := Marks("{") + mps + Marks("}");
    forall i | 0 <= i < |ps|
      ensures Printable(ps[i])
    {
      if 1 <= i <= |mps| {
        assert ps[i] == mps[i - 1];
      }
    }
  }

  lemma ObjectPieces(ms: seq<Member>, spaced: bool)
    ensures Pieces(ObjectText(ms, spaced)) == [Mark('{')] + (MemberPieces(ms, spaced) + Marks("}"))
  {
    ObjectPiecesPrintable(ms, spaced);
    PiecesReadBack(Marks("{") + MemberPieces(ms, spaced) + Marks("}"));
    assert Marks("{") == [Mark('{')];
  }

  lemma NoNameInBrace(rest: seq<Piece>)
    ensures RawMembers([Mark('{')] + rest) == RawMembers(rest) && RawMembers(Marks("}")) == []
  {
    assert ([Mark('{')] + rest)[1..] == rest && Marks("}")[1..] == [];
  }

  /** The object reads back as its members, in order. */
  lemma ObjectReadsBack(ms: seq<Member>, spaced: bool)
    ensures ReadObject(ObjectText(ms, spaced)) == NamesAndValues(ms)
  {
    var rest := MemberPieces(ms, spaced) + Marks("}");
    ObjectPieces(ms, spaced);
    NoNameInBrace(rest);
    if ms == [] {
      assert rest == Marks("}");
    } else {
      MembersSplit(ms, spaced);
      RawsReadBack(ms, spaced);
    }
  }

  // ---------------------------------------------------------------- the request

  function Find(fields: seq<NameValue>, name: string): Option<Value> {
    if fields == [] then None
    else if fields[0].name == name then Some(fields[0].value)
    else Find(fields[1..], name)
  }

  function TextOf(v: Option<Value>): string {
    if v.Some? && v.value.Str? then v.value.s else ""
  }

  function NumberOf(v: Option<Value>): int {
    if v.Some? && v.value.Num? then v.value.n
    else if v.Some? && v.value.Str? && v.value.s != "" then IntOf(v.value.s)
    else 0
  }

  function EnumOf(v: Option<Value>): Enum {
    if v.Some? && v.value.Str? then Named(v.value.s)
    else if v.Some? && v.value.Num? then Unnamed(v.value.n)
    else Default
  }

  function TextsOf(v: Option<Value>): seq<string> {
    if v.Some? && v.value.Arr? then v.value.elems else []
  }

  /** protojson.Unmarshal: each field by its name, absent ones at their defaults. */
  function ReadRequest(t: string): FetchRequest {
    FromObject(ReadObject(t))
  }

  function FromObject(o: seq<NameValue>): FetchRequest {
    FetchRequest(
      TextOf(Find(o, "taskId")), EnumOf(Find(o, "platform")), TextOf(Find(o, "keyword")),
      NumberOf(Find(o, "minPrice")), NumberOf(Find(o, "maxPrice")), TextsOf(Find(o, "excludeKeywords")),
      Find(o, "onlyOnSale") == Some(Bool(true)), NumberOf(Find(o, "limit")),
      EnumOf(Find(o, "sort")), EnumOf(Find(o, "order")), NumberOf(Find(o, "createdAt")))
  }

  /** The value of a field among members. */
  function FieldValue(ms: seq<Member>, f: Field): Option<Value> {
    if ms == [] then None else if ms[0].field == f then Some(ms[0].value) else FieldValue(ms[1..], f)
  }

  lemma KeyNamesDiffer(f: Field, g: Field)
    requires KeyName(f) == KeyName(g)
    ensures f == g
  {
    assert |KeyName(f)| == |KeyName(g)| && KeyName(f)[0] == KeyName(g)[0] && KeyName(f)[1] == KeyName(g)[1];
  }

  lemma {:induction false} FindByField(ms: seq<Member>, f: Field)
    ensures Find(NamesAndValues(ms), KeyName(f)) == FieldValue(ms, f)
  {
    if ms != [] {
      if KeyName(ms[0].field) == KeyName(f) {
        KeyNamesDiffer(ms[0].field, f);
      }
      FindByField(ms[1..], f);
    }
  }

  lemma {:induction false} FieldOfConcat(a: seq<Member>, b: seq<Member>, f: Field)
    ensures FieldValue(a + b, f) == if FieldValue(a, f).Some? then FieldValue(a, f) else FieldValue(b, f)
  {
    if a == [] {
      assert a + b == b;
    } else {
      assert (a + b)[1..] == a[1..] + b;
      FieldOfConcat(a[1..], b, f);
    }
  }

  /** What the members say of a field. */
  function Written(r: FetchRequest, f: Field): seq<Member> {
    match f
    case TaskId => TextMember(TaskId, r.taskId)
    case Platform => EnumMember(Platform, r.platform)
    case Keyword => TextMember(Keyword, r.keyword)
    case MinPrice => NumMember(MinPrice, r.minPrice)
    case MaxPrice => NumMember(MaxPrice, r.maxPrice)
    case ExcludeKeywords => if r.excludeKeywords == [] then [] else [Member(ExcludeKeywords, Arr(r.excludeKeywords))]
    case OnlyOnSale => if r.onlyOnSale then [Member(OnlyOnSale, Bool(true))] else []
    case Limit => NumMember(Limit, r.limit)
    case Sort => EnumMember(Sort, r.sort)
    case Order => EnumMember(Order, r.order)
    case CreatedAt => if r.createdAt == 0 then [] else [Member(CreatedAt, Str(Numeral(r.createdAt)))]
  }

  const FIELDS: seq<Field> :=
    [TaskId, Platform, Keyword, MinPrice, MaxPrice, ExcludeKeywords, OnlyOnSale, Limit, Sort, Order, CreatedAt]

  function AllWritten(r: FetchRequest, fs: seq<Field>): seq<Member> {
    if fs == [] then [] else Written(r, fs[0]) + AllWritten(r, fs[1..])
  }

  /** A field's members say nothing of another field, and one thing at most of their own. */
  lemma WrittenSays(r: FetchRequest, g: Field, f: Field)
    ensures |Written(r, g)| <= 1 && forall m :: m in Written(r, g) ==> m.field == g
    ensures FieldValue(Written(r, g), f) == if g == f && Written(r, g) != [] then Some(Written(r, g)[0].value) else None
  {
    assert Written(r, g) != [] ==> Written(r, g)[1..] == [];
  }

  lemma {:induction false} FieldOfAll(r: FetchRequest, fs: seq<Field>, f: Field)
    ensures FieldValue(AllWritten(r, fs), f) == if f in fs then FieldValue(Written(r, f), f) else None
  {
    if fs != [] {
      FieldOfConcat(Written(r, fs[0]), AllWritten(r, fs[1..]), f);
      WrittenSays(r, fs[0], f);
      FieldOfAll(r, fs[1..], f);
    }
  }

  lemma FieldIsListed(f: Field)
    ensures f in FIELDS
  {
    var fs := FIELDS;
    assert fs[0] == TaskId && fs[1] == Platform && fs[2] == Keyword && fs[3] == MinPrice && fs[4] == MaxPrice;
    assert fs[5] == ExcludeKeywords && fs[6] == OnlyOnSale && fs[7] == Limit && fs[8] == Sort && fs[9] == Order;
    assert fs[10] == CreatedAt;
  }

  lemma WrittenFrom(r: FetchRequest, i: nat)
    requires i <= |FIELDS|
    ensures AllWritten(r, FIELDS[i..]) ==
              if i == |FIELDS| then [] else Written(r, FIELDS[i]) + AllWritten(r, FIELDS[i + 1..])
  {
    if i < |FIELDS| {
      assert FIELDS[i..][1..] == FIELDS[i + 1..];
    }
  }

  /** The fields are written in the order of their numbers. */
  lemma MembersAreWritten(r: FetchRequest)
    ensures Members(r) == AllWritten(r, FIELDS)
  {
    assert FIELDS[0..] == FIELDS;
    WrittenFrom(r, 0);
    SearchPart(r);
    ControlPart(r);
    var a, b, c := SearchMembers(r), ControlMembers(r), TextMember(TaskId, r.taskId);
    assert AllWritten(r, FIELDS[1..]) == a + b;
  }

  lemma Chain(a: seq<Member>, b: seq<Member>, c: seq<Member>, d: seq<Member>, e: seq<Member>,
              x: seq<Member>, x1: seq<Member>, x2: seq<Member>, x3: seq<Member>, x4: seq<Member>, x5: seq<Member>)
    requires x == a + x1 && x1 == b + x2 && x2 == c + x3 && x3 == d + x4 && x4 == e + x5
    ensures x == a + b + c + d + e + x5
  {
  }

  lemma FiveWritten(r: FetchRequest, i: nat)
    requires i + 5 <= |FIELDS|
    ensures AllWritten(r, FIELDS[i..]) ==
              Written(r, FIELDS[i]) + Written(r, FIELDS[i + 1]) + Written(r, FIELDS[i + 2]) + Written(r, FIELDS[i + 3])
              + Written(r, FIELDS[i + 4]) + AllWritten(r, FIELDS[i + 5..])
  {
    WrittenFrom(r, i);
    WrittenFrom(r, i + 1);
    WrittenFrom(r, i + 2);
    WrittenFrom(r, i + 3);
    WrittenFrom(r, i + 4);
    Chain(Written(r, FIELDS[i]), Written(r, FIELDS[i + 1]), Written(r, FIELDS[i + 2]), Written(r, FIELDS[i + 3]),
          Written(r, FIELDS[i + 4]),
          AllWritten(r, FIELDS[i..]), AllWritten(r, FIELDS[i + 1..]), AllWritten(r, FIELDS[i + 2..]),
          AllWritten(r, FIELDS[i + 3..]), AllWritten(r, FIELDS[i + 4..]), AllWritten(r, FIELDS[i + 5..]));
  }

  lemma ControlPart(r: FetchRequest)
    ensures AllWritten(r, FIELDS[6..]) == ControlMembers(r)
  {
    FiveWritten(r, 6);
    WrittenFrom(r, 11);
    assert ControlMembers(r) + [] == ControlMembers(r);
  }

  lemma SearchPart(r: FetchRequest)
    ensures AllWritten(r, FIELDS[1..]) == SearchMembers(r) + AllWritten(r, FIELDS[6..])
  {
    FiveWritten(r, 1);
  }

  /** Looking a field up in a request's text gives what the request writes of it. */
  lemma FieldReads(r: FetchRequest, spaced: bool, f: Field)
    ensures Find(ReadObject(RequestText(r, spaced)), KeyName(f)) ==
              if Written(r, f) == [] then None else Some(Written(r, f)[0].value)
  {
    ObjectReadsBack(Members(r), spaced);
    FindByField(Members(r), f);
    MembersAreWritten(r);
    FieldOfAll(r, FIELDS, f);
    FieldIsListed(f);
    WrittenSays(r, f, f);
  }

  /** What reading an object finds of a field is what the request wrote of it. */
  predicate ReadsField(o: seq<NameValue>, r: FetchRequest, f: Field) {
    Find(o, KeyName(f)) == if Written(r, f) == [] then None else Some(Written(r, f)[0].value)
  }

  ghost predicate Reads(o: seq<NameValue>, r: FetchRequest) {
    forall f: Field :: ReadsField(o, r, f)
  }

  lemma RequestReads(r: FetchRequest, spaced: bool)
    ensures Reads(ReadObject(RequestText(r, spaced)), r)
  {
    forall f: Field
      ensures ReadsField(ReadObject(RequestText(r, spaced)), r, f)
    {
      FieldReads(r, spaced, f);
    }
  }

  lemma TextFieldReads(o: seq<NameValue>, r: FetchRequest, f: Field, name: string, s: string)
    requires Reads(o, r) && KeyName(f) == name && Written(r, f) == TextMember(f, s)
    ensures TextOf(Find(o, name)) == s
  {
    assert ReadsField(o, r, f);
  }

  lemma NumFieldReads(o: seq<NameValue>, r: FetchRequest, f: Field, name: string, n: int)
    requires Reads(o, r) && KeyName(f) == name && Written(r, f) == NumMember(f, n)
    ensures NumberOf(Find(o, name)) == n
  {
    assert ReadsField(o, r, f);
  }

  lemma EnumFieldReads(o: seq<NameValue>, r: FetchRequest, f: Field, name: string, v: Enum)
    requires Reads(o, r) && KeyName(f) == name && Written(r, f) == EnumMember(f, v)
    ensures EnumOf(Find(o, name)) == v
  {
    assert ReadsField(o, r, f);
  }

  lemma ExcludesRead(o: seq<NameValue>, r: FetchRequest)
    requires Reads(o, r)
    ensures TextsOf(Find(o, "excludeKeywords")) == r.excludeKeywords
  {
    assert ReadsField(o, r, ExcludeKeywords) && KeyName(ExcludeKeywords) == "excludeKeywords";
  }

  lemma OnSaleReads(o: seq<NameValue>, r: FetchRequest)
    requires Reads(o, r)
    ensures Find(o, "onlyOnSale") == Some(Bool(true)) <==> r.onlyOnSale
  {
    assert ReadsField(o, r, OnlyOnSale) && KeyName(OnlyOnSale) == "onlyOnSale";
  }

  lemma WrittenNumberReads(n: int)
    ensures NumberOf(Some(Str(Numeral(n)))) == n && NumberOf(None) == 0
  {
    IntReadsBack(n);
    assert |Numeral(n)| > 0;
  }

  lemma CreatedAtReads(o: seq<NameValue>, r: FetchRequest)
    requires Reads(o, r)
    ensures NumberOf(Find(o, "createdAt")) == r.createdAt
  {
    assert ReadsField(o, r, CreatedAt) && KeyName(CreatedAt) == "createdAt";
    WrittenNumberReads(r.createdAt);
  }

  /** Reading a written request gives that request. */
  lemma RequestReadsBack(r: FetchRequest, spaced: bool)
    ensures ReadRequest(RequestText(r, spaced)) == r
  {
    RequestReads(r, spaced);
    FieldsReadBack(ReadObject(RequestText(r, spaced)), r);
  }

  lemma FieldsReadBack(o: seq<NameValue>, r: FetchRequest)
    requires Reads(o, r)
    ensures FromObject(o) == r
  {
    TextFieldReads(o, r, TaskId, "taskId", r.taskId);
    TextFieldReads(o, r, Keyword, "keyword", r.keyword);
    NumFieldReads(o, r, MinPrice, "minPrice", r.minPrice);
    NumFieldReads(o, r, MaxPrice, "maxPrice", r.maxPrice);
    NumFieldReads(o, r, Limit, "limit", r.limit);
    EnumFieldReads(o, r, Platform, "platform", r.platform);
    EnumFieldReads(o, r, Sort, "sort", r.sort);
    EnumFieldReads(o, r, Order, "order", r.order);
    ExcludesRead(o, r);
    OnSaleReads(o, r);
    CreatedAtReads(o, r);
  }

  /** Deleting by text is deleting by request: two requests have the same text if and only if they are equal. */
  lemma SameTextSameRequest(r: FetchRequest, r': FetchRequest, spaced: bool)
    ensures RequestText(r, spaced) == RequestText(r', spaced) <==> r == r'
  {
    RequestReadsBack(r, spaced);
    RequestReadsBack(r', spaced);
  }
}
