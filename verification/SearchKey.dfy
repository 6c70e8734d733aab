/**
The de-duplication key of a new task: a URL built from the search. Two requests get the same key exactly when they
ask for the same search. Text is bytes here, because escaping works on the bytes of the UTF-8 form.
*/
module SearchKey {
  import opened Blanks
  import opened Decimal

  type Byte = n: int | 0 <= n < 256

  const MERCARI := 1
  const MERCARI_LEAST_PRICE := 300

  datatype Request = Request(platform: int, keyword: seq<Byte>, minPrice: int, maxPrice: int)

  /** The query parameters of both URL forms. */
  datatype Key = ExcludeKeyword | Keyword | MaxPrice | MinPrice | Order | PriceMax | PriceMin | Sort | SortBy | SortOrder | Status

  function KeyText(k: Key): string {
    match k
    case ExcludeKeyword => "exclude_keyword"
    case Keyword => "keyword"
    case MaxPrice => "max_price"
    case MinPrice => "min_price"
    case Order => "order"
    case PriceMax => "price_max"
    case PriceMin => "price_min"
    case Sort => "sort"
    case SortBy => "sort_by"
    case SortOrder => "sort_order"
    case Status => "status"
  }

  /** url.Values: the values of each parameter, in the order they were added. */
  type Values = map<Key, seq<seq<Byte>>>

  /** Encode writes parameters sorted by name; this is that order for all names used (`KeysAreSorted`). */
  const SORTED_KEYS: seq<Key> :=
    [ExcludeKeyword, Keyword, MaxPrice, MinPrice, Order, PriceMax, PriceMin, Sort, SortBy, SortOrder, Status]

  /** One text stands before another in byte order: at the first difference, or by being shorter. */
  predicate SortsBefore(a: string, b: string) {
    exists k :: 0 <= k <= |a| && k <= |b| && a[..k] == b[..k] && k < |b| && (k == |a| || a[k] < b[k])
  }

  lemma DiffersAt(a: string, b: string, k: nat)
    requires k <= |a| && k < |b| && a[..k] == b[..k] && (k == |a| || a[k] < b[k])
    ensures SortsBefore(a, b)
  {
  }

  lemma SortsBeforeIsTransitive(a: string, b: string, c: string)
    requires SortsBefore(a, b) && SortsBefore(b, c)
    ensures SortsBefore(a, c)
  {
    var j :| 0 <= j <= |a| && j <= |b| && a[..j] == b[..j] && j < |b| && (j == |a| || a[j] < b[j]);
    var k :| 0 <= k <= |b| && k <= |c| && b[..k] == c[..k] && k < |c| && (k == |b| || b[k] < c[k]);
    var m := if j < k then j else k;
    assert a[..j][..m] == a[..m] && b[..j][..m] == b[..m] && b[..k][..m] == b[..m] && c[..k][..m] == c[..m];
    assert j < k ==> b[..k][j] == b[j] == c[..k][j] == c[j];
    assert k < j ==> a[..j][k] == a[k] == b[..j][k] == b[k];
    DiffersAt(a, c, m);
  }

  lemma NeighboursAreSorted(i: nat)
    requires i + 1 < |SORTED_KEYS|
    ensures SortsBefore(KeyText(SORTED_KEYS[i]), KeyText(SORTED_KEYS[i + 1]))
  {
    DiffersAt(KeyText(SORTED_KEYS[i]), KeyText(SORTED_KEYS[i + 1]), [0, 0, 1, 0, 0, 7, 0, 4, 5, 1][i]);
  }

  lemma {:induction false} KeyPairIsSorted(i: nat, j: nat)
    requires i < j < |SORTED_KEYS|
    ensures SortsBefore(KeyText(SORTED_KEYS[i]), KeyText(SORTED_KEYS[j]))
  {
    NeighboursAreSorted(j - 1);
    if i < j - 1 {
      KeyPairIsSorted(i, j - 1);
      SortsBeforeIsTransitive(KeyText(SORTED_KEYS[i]), KeyText(SORTED_KEYS[j - 1]), KeyText(SORTED_KEYS[j]));
    }
  }

  /** The names increase along the list, so Encode's sort leaves them in this order. */
  lemma KeysAreSorted()
    ensures forall i, j :: 0 <= i < j < |SORTED_KEYS| ==> SortsBefore(KeyText(SORTED_KEYS[i]), KeyText(SORTED_KEYS[j]))
  {
    forall i, j | 0 <= i < j < |SORTED_KEYS|
      ensures SortsBefore(KeyText(SORTED_KEYS[i]), KeyText(SORTED_KEYS[j]))
    {
      KeyPairIsSorted(i, j);
    }
  }

  // ---------------------------------------------------------------- escaping

  predicate Unreserved(b: Byte) {
    'a' as int <= b <= 'z' as int || 'A' as int <= b <= 'Z' as int || '0' as int <= b <= '9' as int
    || b == '-' as int || b == '_' as int || b == '.' as int || b == '~' as int
  }

  function HexDigit(n: int): char
    requires 0 <= n < 16
  {
    if n < 10 then ('0' as int + n) as char else ('A' as int + n - 10) as char
  }

  function HexValue(c: char): int {
    if IsDigit(c) then c as int - '0' as int else if 'A' <= c <= 'F' then c as int - 'A' as int + 10 else 0
  }

  /** Percent-encoding as in section 2.1 of RFC 3986; a blank is written `+` or, if not `plus`, percent-encoded too. */
  function EscapeByte(b: Byte, plus: bool): string {
    if Unreserved(b) then [b as char]
    else if b == 0x20 && plus then "+"
    else ['%', HexDigit(b / 16), HexDigit(b % 16)]
  }

  function Escape(s: seq<Byte>, plus: bool): string {
    if s == [] then "" else EscapeByte(s[0], plus) + Escape(s[1..], plus)
  }

  /** Reads escaped text back; undefined escapes read as anything. */
  function Unescape(t: string): seq<int> {
    if t == "" then []
    else if t[0] == '%' && |t| >= 3 then [16 * HexValue(t[1]) + HexValue(t[2])] + Unescape(t[3..])
    else [if t[0] == '+' then 0x20 else t[0] as int] + Unescape(t[1..])
  }

  lemma UnescapeByte(b: Byte, plus: bool, rest: string)
    ensures Unescape(EscapeByte(b, plus) + rest) == [b] + Unescape(rest)
  {
    var e := EscapeByte(b, plus);
    if e[0] == '%' {
      assert (e + rest)[3..] == rest;
      assert HexValue(HexDigit(b / 16)) == b / 16 && HexValue(HexDigit(b % 16)) == b % 16;
    } else {
      assert (e + rest)[1..] == rest;
    }
  }

  lemma {:induction false} EscapeRoundTrip(s: seq<Byte>, plus: bool)
    ensures Unescape(Escape(s, plus)) == s
  {
    if s != [] {
      EscapeRoundTrip(s[1..], plus);
      UnescapeByte(s[0], plus, Escape(s[1..], plus));
    }
  }

  /** What a name or an escaped value never contains. */
  predicate Plain(t: string) {
    forall i :: 0 <= i < |t| ==> t[i] != '&' && t[i] != '='
  }

  lemma {:induction false} EscapeIsPlain(s: seq<Byte>, plus: bool)
    ensures Plain(Escape(s, plus))
  {
    if s != [] {
      EscapeIsPlain(s[1..], plus);
    }
  }

  /** strings.ReplaceAll(t, "+", "%20"). */
  function SpacePluses(t: string): string {
    if t == "" then "" else (if t[0] == '+' then "%20" else [t[0]]) + SpacePluses(t[1..])
  }

  lemma {:induction false} SpacePlusesConcat(a: string, b: string)
    ensures SpacePluses(a + b) == SpacePluses(a) + SpacePluses(b)
  {
    if a == "" {
      assert a + b == b;
    } else {
      assert (a + b)[1..] == a[1..] + b;
      SpacePlusesConcat(a[1..], b);
    }
  }

  lemma {:induction false} SpacePlusesIdle(t: string)
    requires forall i :: 0 <= i < |t| ==> t[i] != '+'
    ensures SpacePluses(t) == t
  {
    if t != "" {
      SpacePlusesIdle(t[1..]);
    }
  }

  lemma SpacedByte(b: Byte)
    ensures SpacePluses(EscapeByte(b, true)) == EscapeByte(b, false)
  {
    if b == 0x20 {
      assert SpacePluses("+") == "%20" + SpacePluses("");
      assert EscapeByte(b, false) == "%20";
    } else {
      SpacePlusesIdle(EscapeByte(b, true));
    }
  }

  lemma {:induction false} SpacedEscape(s: seq<Byte>)
    ensures SpacePluses(Escape(s, true)) == Escape(s, false)
  {
    if s != [] {
      SpacedByte(s[0]);
      SpacedEscape(s[1..]);
      SpacePlusesConcat(EscapeByte(s[0], true), Escape(s[1..], true));
    }
  }

  // ---------------------------------------------------------------- query strings

  datatype Pair = Pair(key: Key, value: seq<Byte>)

  /** One pair for each value of the parameter. */
  function KeyPairs(k: Key, texts: seq<seq<Byte>>): (ps: seq<Pair>)
    ensures |ps| == |texts| && forall i :: 0 <= i < |ps| ==> ps[i] == Pair(k, texts[i])
  {
    seq(|texts|, i requires 0 <= i < |texts| => Pair(k, texts[i]))
  }

  function PairsOf(values: Values, k: Key): seq<Pair> {
    if k in values then KeyPairs(k, values[k]) else []
  }

  function Pairs(values: Values, keys: seq<Key>): seq<Pair> {
    if keys == [] then [] else PairsOf(values, keys[0]) + Pairs(values, keys[1..])
  }

  function FieldText(p: Pair, plus: bool): string {
    KeyText(p.key) + "=" + Escape(p.value, plus)
  }

  function Join(ps: seq<Pair>, plus: bool): string {
    if ps == [] then "" else FieldText(ps[0], plus) + (if |ps| == 1 then "" else "&" + Join(ps[1..], plus))
  }

  /** url.Values.Encode. */
  function Encode(values: Values): string {
    Join(Pairs(values, SORTED_KEYS), true)
  }

  /** Splitting at the first separator is unambiguous. */
  lemma {:induction false} CutUnique(a: string, x: string, b: string, y: string, sep: char)
    requires a + [sep] + x == b + [sep] + y
    requires forall i :: 0 <= i < |a| ==> a[i] != sep
    requires forall i :: 0 <= i < |b| ==> b[i] != sep
    ensures a == b && x == y
  {
    var t := a + [sep] + x;
    assert t[|a|] == sep && t[|b|] == (b + [sep] + y)[|b|] == sep;
    assert forall i :: 0 <= i < |a| ==> t[i] == a[i];
    assert forall i :: 0 <= i < |b| ==> t[i] == b[i];
    assert |a| == |b|;
    assert a == t[..|a|] == b;
    assert x == t[|a| + 1..] == y;
  }

  lemma KeyTextPlain(k: Key)
    ensures Plain(KeyText(k)) && forall i :: 0 <= i < |KeyText(k)| ==> KeyText(k)[i] != '+'
  {
  }

  lemma KeyTextInjective(j: Key, k: Key)
    requires KeyText(j) == KeyText(k)
    ensures j == k
  {
    assert KeyText(j)[0] == KeyText(k)[0] && |KeyText(j)| == |KeyText(k)|;
    if |KeyText(j)| > 6 {
      assert KeyText(j)[6] == KeyText(k)[6] && KeyText(j)[1] == KeyText(k)[1];
      assert KeyText(j)[|KeyText(j)| - 1] == KeyText(k)[|KeyText(k)| - 1];
    }
  }

  lemma FieldInjective(p: Pair, q: Pair, plus: bool)
    requires FieldText(p, plus) == FieldText(q, plus)
    ensures p == q
  {
    KeyTextPlain(p.key);
    KeyTextPlain(q.key);
    CutUnique(KeyText(p.key), Escape(p.value, plus), KeyText(q.key), Escape(q.value, plus), '=');
    KeyTextInjective(p.key, q.key);
    EscapeRoundTrip(p.value, plus);
    EscapeRoundTrip(q.value, plus);
  }

  lemma FieldHasNoAmpersand(p: Pair, plus: bool)
    ensures FieldText(p, plus) != "" && forall i :: 0 <= i < |FieldText(p, plus)| ==> FieldText(p, plus)[i] != '&'
  {
    KeyTextPlain(p.key);
    EscapeIsPlain(p.value, plus);
  }

  /** Nothing, or an ampersand and more. */
  predicate IsTail(t: string) {
    t == "" || t[0] == '&'
  }

  lemma FieldEndsAtTail(f: string, x: string, g: string, y: string)
    requires f + x == g + y && IsTail(x) && IsTail(y)
    requires forall i :: 0 <= i < |f| ==> f[i] != '&'
    requires forall i :: 0 <= i < |g| ==> g[i] != '&'
    ensures f == g && x == y
  {
    var t := f + x;
    assert |x| > 0 ==> t[|f|] == '&';
    assert |y| > 0 ==> t[|g|] == '&';
    assert forall i :: 0 <= i < |f| ==> t[i] == f[i];
    assert forall i :: 0 <= i < |g| ==> t[i] == g[i];
    assert f == t[..|f|] && g == t[..|g|];
    assert x == t[|f|..] && y == t[|g|..];
  }

  function TailText(ps: seq<Pair>, plus: bool): (t: string)
    requires ps != []
    ensures IsTail(t)
  {
    if |ps| == 1 then "" else "&" + Join(ps[1..], plus)
  }

  lemma {:induction false} JoinInjective(ps: seq<Pair>, qs: seq<Pair>, plus: bool)
    requires Join(ps, plus) == Join(qs, plus)
    ensures ps == qs
  {
    if ps != [] {
      FieldHasNoAmpersand(ps[0], plus);
    }
    if qs != [] {
      FieldHasNoAmpersand(qs[0], plus);
    }
    if ps != [] && qs != [] {
      var x, y := TailText(ps, plus), TailText(qs, plus);
      FieldEndsAtTail(FieldText(ps[0], plus), x, FieldText(qs[0], plus), y);
      FieldInjective(ps[0], qs[0], plus);
      if |ps| > 1 && |qs| > 1 {
        assert x[1..] == Join(ps[1..], plus) && y[1..] == Join(qs[1..], plus);
        JoinInjective(ps[1..], qs[1..], plus);
      }
      assert ps == [ps[0]] + ps[1..] && qs == [qs[0]] + qs[1..];
    }
  }

  lemma {:induction false} PairsOnlyListed(values: Values, keys: seq<Key>)
    ensures forall i :: 0 <= i < |Pairs(values, keys)| ==> Pairs(values, keys)[i].key in keys
  {
    if keys != [] {
      PairsOnlyListed(values, keys[1..]);
    }
  }

  /** Pairs of one name in front are told apart from what follows. */
  lemma FrontOfKey(k: Key, a: seq<Pair>, x: seq<Pair>, b: seq<Pair>, y: seq<Pair>)
    requires a + x == b + y
    requires (forall i :: 0 <= i < |a| ==> a[i].key == k) && (forall i :: 0 <= i < |b| ==> b[i].key == k)
    requires (forall i :: 0 <= i < |x| ==> x[i].key != k) && (forall i :: 0 <= i < |y| ==> y[i].key != k)
    ensures a == b && x == y
  {
    var t := a + x;
    assert forall i :: 0 <= i < |a| ==> t[i] == a[i];
    assert forall i :: 0 <= i < |b| ==> t[i] == b[i];
    assert forall i :: |a| <= i < |t| ==> t[i] == x[i - |a|];
    assert forall i :: |b| <= i < |t| ==> t[i] == y[i - |b|];
    var c, d := if |b| < |a| then t[|b|].key else k, if |a| < |b| then t[|a|].key else k;
    assert c == k && d == k;
    assert a == t[..|a|] && b == t[..|b|] && x == t[|a|..] && y == t[|b|..];
  }

  /** Every parameter that is set has a value. */
  predicate NoneEmpty(values: Values) {
    forall k :: k in values ==> values[k] != []
  }

  lemma SameTexts(v: Values, w: Values, k: Key)
    requires NoneEmpty(v) && NoneEmpty(w) && PairsOf(v, k) == PairsOf(w, k)
    ensures (k in v <==> k in w) && (k in v ==> v[k] == w[k])
  {
    if k in v && k in w {
      assert |v[k]| == |PairsOf(v, k)| == |w[k]|;
      assert forall i :: 0 <= i < |v[k]| ==> v[k][i] == PairsOf(v, k)[i].value == w[k][i];
    }
  }

  lemma {:induction false} PairsInjective(v: Values, w: Values, keys: seq<Key>)
    requires NoneEmpty(v) && NoneEmpty(w)
    requires Pairs(v, keys) == Pairs(w, keys) && forall i, j :: 0 <= i < j < |keys| ==> keys[i] != keys[j]
    ensures forall k :: k in keys ==> (k in v <==> k in w) && (k in v ==> v[k] == w[k])
  {
    if keys != [] {
      PairsOnlyListed(v, keys[1..]);
      PairsOnlyListed(w, keys[1..]);
      assert keys[0] !in keys[1..];
      FrontOfKey(keys[0], PairsOf(v, keys[0]), Pairs(v, keys[1..]), PairsOf(w, keys[0]), Pairs(w, keys[1..]));
      SameTexts(v, w, keys[0]);
      PairsInjective(v, w, keys[1..]);
    }
  }

  /** Encoding is injective, with blanks written either way. */
  lemma EncodeInjective(v: Values, w: Values, plus: bool)
    requires NoneEmpty(v) && NoneEmpty(w)
    requires Join(Pairs(v, SORTED_KEYS), plus) == Join(Pairs(w, SORTED_KEYS), plus)
    ensures v == w
  {
    JoinInjective(Pairs(v, SORTED_KEYS), Pairs(w, SORTED_KEYS), plus);
    KeysListedOnce();
    PairsInjective(v, w, SORTED_KEYS);
    forall k: Key
      ensures k in SORTED_KEYS
    {
      KeyIsListed(k);
    }
  }

  lemma KeysListedOnce()
    ensures forall i, j :: 0 <= i < j < |SORTED_KEYS| ==> SORTED_KEYS[i] != SORTED_KEYS[j]
  {
  }

  lemma KeyIsListed(k: Key)
    ensures k in SORTED_KEYS
  {
    var keys := SORTED_KEYS;
    assert keys[0] == ExcludeKeyword && keys[1] == Keyword && keys[2] == MaxPrice && keys[3] == MinPrice && keys[4] == Order;
    assert keys[5] == PriceMax && keys[6] == PriceMin && keys[7] == Sort && keys[8] == SortBy && keys[9] == SortOrder;
    assert keys[10] == Status;
  }

  lemma {:induction false} SpacedJoin(ps: seq<Pair>)
    ensures SpacePluses(Join(ps, true)) == Join(ps, false)
  {
    if ps != [] {
      var key, e, tail := KeyText(ps[0].key), Escape(ps[0].value, true), if |ps| == 1 then "" else "&" + Join(ps[1..], true);
      SpacedJoin(ps[1..]);
      KeyTextPlain(ps[0].key);
      SpacedEscape(ps[0].value);
      SpacePlusesConcat(key + "=" + e, tail);
      SpacePlusesConcat(key + "=", e);
      SpacePlusesIdle(key + "=");
      if |ps| > 1 {
        SpacePlusesConcat("&", Join(ps[1..], true));
        SpacePlusesIdle("&");
      }
    }
  }

  // ---------------------------------------------------------------- the URL

  function Bytes(s: string): (r: seq<Byte>)
    requires forall i :: 0 <= i < |s| ==> s[i] as int < 256
    ensures |r| == |s| && forall i :: 0 <= i < |s| ==> r[i] == s[i] as int
  {
    seq(|s|, i requires 0 <= i < |s| => s[i] as int)
  }

  function Number(n: int): seq<Byte> {
    Bytes(Numeral(n))
  }

  /** mapSortBy: unknown sorts count as the default. */
  function SortText(sortBy: int): string {
    if sortBy == 1 then "price" else if sortBy == 2 then "score" else if sortBy == 3 then "num_likes" else "created_time"
  }

  function OrderText(order: int): string {
    if order == 1 then "asc" else "desc"
  }

  function SortValue(sortBy: int): seq<Byte> {
    Bytes(SortText(sortBy))
  }

  function OrderValue(order: int): seq<Byte> {
    Bytes(OrderText(order))
  }

  const ON_SALE: seq<Byte> := Bytes("on_sale")

  /** The least price that ends up in the search; zero stands for none. */
  function LeastPrice(r: Request): int {
    if r.platform == MERCARI then MercariLeast(r.minPrice) else if r.minPrice <= 0 then 0 else r.minPrice
  }

  /** Mercari knows no prices below 300. */
  function MercariLeast(minPrice: int): int {
    if minPrice <= 0 then 0 else if minPrice < MERCARI_LEAST_PRICE then MERCARI_LEAST_PRICE else minPrice
  }

  function MostPrice(r: Request): int {
    if r.maxPrice <= 0 then 0 else r.maxPrice
  }

  /** Number of bytes of the white space character at the front, or zero. */
  function SpaceWidth(s: seq<Byte>): nat {
    if |s| >= 1 && (9 <= s[0] <= 13 || s[0] == 32) then 1
    else if |s| >= 2 && s[0] == 0xC2 && (s[1] == 0x85 || s[1] == 0xA0) then 2
    else if |s| >= 3 && s[0] == 0xE1 && s[1] == 0x9A && s[2] == 0x80 then 3
    else if |s| >= 3 && s[0] == 0xE2 && s[1] == 0x80 && (0x80 <= s[2] <= 0x8A || 0xA8 <= s[2] <= 0xA9 || s[2] == 0xAF) then 3
    else if |s| >= 3 && s[0] == 0xE2 && s[1] == 0x81 && s[2] == 0x9F then 3
    else if |s| >= 3 && s[0] == 0xE3 && s[1] == 0x80 && s[2] == 0x80 then 3
    else 0
  }

  /** strings.TrimSpace leaves nothing of the text. */
  predicate BlankText(s: seq<Byte>)
    decreases |s|
  {
    s == [] || (0 < SpaceWidth(s) <= |s| && BlankText(s[SpaceWidth(s)..]))
  }

  /** The UTF-8 form of a character. */
  function Utf8(c: char): (s: seq<Byte>)
    ensures |s| > 0
  {
    var n := c as int;
    if n < 0x80 then [n]
    else if n < 0x800 then [0xC0 + n / 64, 0x80 + n % 64]
    else if n < 0x10000 then [0xE0 + n / 4096, 0x80 + n / 64 % 64, 0x80 + n % 64]
    else [0xF0 + n / 262144 % 8, 0x80 + n / 4096 % 64, 0x80 + n / 64 % 64, 0x80 + n % 64]
  }

  function Utf8Text(s: string): seq<Byte> {
    if s == "" then [] else Utf8(s[0]) + Utf8Text(s[1..])
  }

  lemma SpaceIsRecognised(c: char, rest: seq<Byte>)
    ensures SpaceWidth(Utf8(c) + rest) == if IsSpace(c) then |Utf8(c)| else 0
  {
    var n, t := c as int, Utf8(c) + rest;
    assert forall i :: 0 <= i < |Utf8(c)| ==> t[i] == Utf8(c)[i];
    if 0x800 <= n < 0x10000 {
      assert n == 4096 * (n / 4096) + 64 * (n / 64 % 64) + n % 64;
    }
  }

  /** On bytes and on characters, the same texts are blank. */
  lemma {:induction false} BlankTextIsAllSpace(s: string)
    ensures BlankText(Utf8Text(s)) <==> AllSpace(s)
  {
    if s != "" {
      var first, rest := Utf8(s[0]), Utf8Text(s[1..]);
      BlankTextIsAllSpace(s[1..]);
      SpaceIsRecognised(s[0], rest);
      assert (first + rest)[|first|..] == rest;
      assert forall i :: 1 <= i < |s| ==> s[i] == s[1..][i - 1];
    }
  }

  /** The exclude keywords that are not blank. */
  function Telling(excludes: seq<seq<Byte>>): seq<seq<Byte>> {
    if excludes == [] then []
    else Telling(excludes[..|excludes| - 1]) + if BlankText(excludes[|excludes| - 1]) then [] else [excludes[|excludes| - 1]]
  }

  function WithBound(values: Values, k: Key, n: int): Values {
    if n > 0 then values[k := [Number(n)]] else values
  }

  function WithExcludes(values: Values, excludes: seq<seq<Byte>>): Values {
    if excludes == [] then values else values[ExcludeKeyword := excludes]
  }

  function MercariValues(r: Request, excludes: seq<seq<Byte>>, sortBy: int, order: int): Values {
    var base: Values := (if r.keyword == [] then map[] else map[Keyword := [r.keyword]])[Status := [ON_SALE]];
    var bounds := WithBound(WithBound(base, PriceMin, MercariLeast(r.minPrice)), PriceMax, MostPrice(r));
    WithExcludes(bounds, Telling(excludes))[Sort := [SortValue(sortBy)]][Order := [OrderValue(order)]]
  }

  function OtherValues(r: Request, sortBy: int, order: int): Values {
    WithBound(WithBound(map[Keyword := [r.keyword]], MinPrice, LeastPrice(r)), MaxPrice, MostPrice(r))
      [SortBy := [Number(sortBy)]][SortOrder := [Number(order)]]
  }

  function MercariURL(r: Request, excludes: seq<seq<Byte>>, sortBy: int, order: int): string {
    "https://jp.mercari.com/search?" + Join(Pairs(MercariValues(r, excludes, sortBy, order), SORTED_KEYS), false)
  }

  function DedupURL(r: Request, sortBy: int, order: int): string {
    if r.keyword == [] then ""
    else if r.platform == MERCARI then MercariURL(r, [], sortBy, order)
    else
      "goodshunter://platform-" + Numeral(r.platform) + "/search?" + Join(Pairs(OtherValues(r, sortBy, order), SORTED_KEYS), true)
  }

  /** The parameters, set and added one by one. */
  method FillMercari(r: Request, excludes: seq<seq<Byte>>, sortBy: int, order: int) returns (values: Values)
    ensures values == MercariValues(r, excludes, sortBy, order)
  {
    values := map[];
    if r.keyword != [] {
      values := values[Keyword := [r.keyword]];
    }
    values := values[Status := [ON_SALE]];
    var minPrice := r.minPrice;
    if minPrice > 0 && minPrice < MERCARI_LEAST_PRICE {
      minPrice := MERCARI_LEAST_PRICE;
    }
    if minPrice > 0 {
      values := values[PriceMin := [Number(minPrice)]];
    }
    if r.maxPrice > 0 {
      values := values[PriceMax := [Number(r.maxPrice)]];
    }
    values := AddExcludes(values, excludes);
    values := values[Sort := [SortValue(sortBy)]];
    values := values[Order := [OrderValue(order)]];
  }

  lemma OneMoreExclude(given: Values, excludes: seq<seq<Byte>>, i: nat)
    requires ExcludeKeyword !in given && i < |excludes|
    ensures var before := WithExcludes(given, Telling(excludes[..i]));
            var added := if ExcludeKeyword in before then before[ExcludeKeyword] else [];
            WithExcludes(given, Telling(excludes[..i + 1])) ==
              if BlankText(excludes[i]) then before else before[ExcludeKeyword := added + [excludes[i]]]
  {
    assert excludes[..i + 1][..i] == excludes[..i];
    var told := Telling(excludes[..i]);
    assert Telling(excludes[..i + 1]) == told + if BlankText(excludes[i]) then [] else [excludes[i]];
    assert told + [] == told;
    assert given[ExcludeKeyword := told][ExcludeKeyword := told + [excludes[i]]] == given[ExcludeKeyword := told + [excludes[i]]];
  }

  method AddExcludes(given: Values, excludes: seq<seq<Byte>>) returns (values: Values)
    requires ExcludeKeyword !in given
    ensures values == WithExcludes(given, Telling(excludes))
  {
    values := given;
    var i := 0;
    while i < |excludes|
      invariant 0 <= i <= |excludes|
      invariant values == WithExcludes(given, Telling(excludes[..i]))
    {
      OneMoreExclude(given, excludes, i);
      if !BlankText(excludes[i]) {
        var added := if ExcludeKeyword in values then values[ExcludeKeyword] else [];
        values := values[ExcludeKeyword := added + [excludes[i]]];
      }
      i := i + 1;
    }
    assert excludes[..i] == excludes;
  }

  method BuildMercariURL(r: Request, excludes: seq<seq<Byte>>, sortBy: int, order: int) returns (url: string)
    ensures url == MercariURL(r, excludes, sortBy, order)
  {
    var values := FillMercari(r, excludes, sortBy, order);
    var qs := Encode(values);
    SpacedJoin(Pairs(values, SORTED_KEYS));
    qs := SpacePluses(qs);
    url := "https://jp.mercari.com/search?" + qs;
  }

  method BuildDedupURL(r: Request, sortBy: int, order: int) returns (url: string)
    ensures url == DedupURL(r, sortBy, order)
  {
    if r.keyword == [] {
      return "";
    }
    if r.platform == MERCARI {
      url := BuildMercariURL(r, [], sortBy, order);
      return;
    }
    var values: Values := map[];
    values := values[Keyword := [r.keyword]];
    if r.minPrice > 0 {
      values := values[MinPrice := [Number(r.minPrice)]];
    }
    if r.maxPrice > 0 {
      values := values[MaxPrice := [Number(r.maxPrice)]];
    }
    values := values[SortBy := [Number(sortBy)]];
    values := values[SortOrder := [Number(order)]];
    assert values == OtherValues(r, sortBy, order);
    url := "goodshunter://platform-" + Numeral(r.platform) + "/search?" + Encode(values);
  }

  // ---------------------------------------------------------------- one key, one search

  predicate AcceptedSort(sortBy: int, order: int) {
    0 <= sortBy <= 3 && 0 <= order <= 1
  }

  predicate SameSearch(r: Request, sortBy: int, order: int, r': Request, sortBy': int, order': int) {
    && r.platform == r'.platform && r.keyword == r'.keyword && sortBy == sortBy' && order == order'
    && LeastPrice(r) == LeastPrice(r') && MostPrice(r) == MostPrice(r')
  }

  lemma BytesInjective(s: string, t: string)
    requires forall i :: 0 <= i < |s| ==> s[i] as int < 256
    requires forall i :: 0 <= i < |t| ==> t[i] as int < 256
    requires Bytes(s) == Bytes(t)
    ensures s == t
  {
    assert |Bytes(s)| == |Bytes(t)|;
    forall i | 0 <= i < |s|
      ensures s[i] == t[i]
    {
      assert Bytes(s)[i] == Bytes(t)[i];
    }
  }

  lemma NumberInjective(m: int, n: int)
    requires Number(m) == Number(n)
    ensures m == n
  {
    BytesInjective(Numeral(m), Numeral(n));
    NumeralInjective(m, n);
  }

  lemma BoundsAgree(k: Key, m: int, n: int, v: Values, w: Values)
    requires v == w && m >= 0 && n >= 0
    requires (k in v <==> m > 0) && (m > 0 ==> v[k] == [Number(m)])
    requires (k in w <==> n > 0) && (n > 0 ==> w[k] == [Number(n)])
    ensures m == n
  {
    if m > 0 {
      assert v[k][0] == w[k][0];
      NumberInjective(m, n);
    }
  }

  /** What the Mercari parameters hold, name by name. */
  predicate MercariShape(v: Values, r: Request, ex: seq<seq<Byte>>, s: int, o: int) {
    && NoneEmpty(v) && (Keyword in v <==> r.keyword != []) && (Keyword in v ==> v[Keyword] == [r.keyword])
    && (ExcludeKeyword in v <==> Telling(ex) != []) && (ExcludeKeyword in v ==> v[ExcludeKeyword] == Telling(ex))
    && Sort in v && v[Sort] == [SortValue(s)] && Order in v && v[Order] == [OrderValue(o)]
    && Status in v && v[Status] == [ON_SALE] && !(MaxPrice in v || MinPrice in v || SortBy in v || SortOrder in v)
    && (PriceMin in v <==> MercariLeast(r.minPrice) > 0) && (PriceMin in v ==> v[PriceMin] == [Number(MercariLeast(r.minPrice))])
    && (PriceMax in v <==> MostPrice(r) > 0) && (PriceMax in v ==> v[PriceMax] == [Number(MostPrice(r))])
  }

  lemma MercariHasShape(r: Request, ex: seq<seq<Byte>>, s: int, o: int)
    ensures MercariShape(MercariValues(r, ex, s, o), r, ex, s, o)
  {
  }

  lemma ShapeTells(
    v: Values, r: Request, ex: seq<seq<Byte>>, s: int, o: int, r': Request, ex': seq<seq<Byte>>, s': int, o': int)
    requires AcceptedSort(s, o) && AcceptedSort(s', o') && MercariShape(v, r, ex, s, o) && MercariShape(v, r', ex', s', o')
    ensures r.keyword == r'.keyword && Telling(ex) == Telling(ex') && s == s' && o == o'
    ensures MercariLeast(r.minPrice) == MercariLeast(r'.minPrice) && MostPrice(r) == MostPrice(r')
  {
    assert v[Sort][0] == SortValue(s) == SortValue(s') && v[Order][0] == OrderValue(o) == OrderValue(o');
    SortValueInjective(s, s');
    OrderValueInjective(o, o');
    assert Keyword in v ==> v[Keyword][0] == r.keyword == r'.keyword;
    BoundsAgree(PriceMin, MercariLeast(r.minPrice), MercariLeast(r'.minPrice), v, v);
    BoundsAgree(PriceMax, MostPrice(r), MostPrice(r'), v, v);
  }

  lemma SortValueInjective(s: int, s': int)
    requires 0 <= s <= 3 && 0 <= s' <= 3 && SortValue(s) == SortValue(s')
    ensures s == s'
  {
    BytesInjective(SortText(s), SortText(s'));
    assert SortText(s)[0] == SortText(s')[0];
    assert SortText(s)[1] == SortText(s')[1];
  }

  lemma OrderValueInjective(o: int, o': int)
    requires 0 <= o <= 1 && 0 <= o' <= 1 && OrderValue(o) == OrderValue(o')
    ensures o == o'
  {
    assert |OrderValue(o)| == if o == 1 then 3 else 4;
    assert |OrderValue(o')| == if o' == 1 then 3 else 4;
  }

  /** What the parameters of the other platforms hold, name by name. */
  predicate OtherShape(v: Values, r: Request, s: int, o: int) {
    && NoneEmpty(v) && Keyword in v && v[Keyword] == [r.keyword]
    && SortBy in v && v[SortBy] == [Number(s)] && SortOrder in v && v[SortOrder] == [Number(o)]
    && (MinPrice in v <==> LeastPrice(r) > 0) && (MinPrice in v ==> v[MinPrice] == [Number(LeastPrice(r))])
    && (MaxPrice in v <==> MostPrice(r) > 0) && (MaxPrice in v ==> v[MaxPrice] == [Number(MostPrice(r))])
  }

  lemma OtherHasShape(r: Request, s: int, o: int)
    ensures OtherShape(OtherValues(r, s, o), r, s, o)
  {
  }

  lemma OtherShapeTells(v: Values, r: Request, s: int, o: int, r': Request, s': int, o': int)
    requires OtherShape(v, r, s, o) && OtherShape(v, r', s', o')
    ensures r.keyword == r'.keyword && s == s' && o == o' && LeastPrice(r) == LeastPrice(r') && MostPrice(r) == MostPrice(r')
  {
    assert v[Keyword][0] == r.keyword == r'.keyword;
    assert v[SortBy][0] == Number(s) == Number(s') && v[SortOrder][0] == Number(o) == Number(o');
    NumberInjective(s, s');
    NumberInjective(o, o');
    BoundsAgree(MinPrice, LeastPrice(r), LeastPrice(r'), v, v);
    BoundsAgree(MaxPrice, MostPrice(r), MostPrice(r'), v, v);
  }

  lemma NumeralHasNoSlash(n: int)
    ensures forall i :: 0 <= i < |Numeral(n)| ==> Numeral(n)[i] != '/'
  {
  }

  lemma DropPrefix(p: string, a: string, b: string)
    requires p + a == p + b
    ensures a == b
  {
    assert (p + a)[|p|..] == a && (p + b)[|p|..] == b;
  }

  lemma OtherURLShape(p: string, a: string, q: string)
    ensures p + a + "/search?" + q == p + (a + ['/'] + ("search?" + q))
  {
    assert "/search?" == ['/'] + "search?";
    assert p + a + (['/'] + "search?") + q == p + (a + ['/'] + ("search?" + q));
  }

  lemma OtherURLsTell(p: string, n: int, q: string, n': int, q': string)
    requires p + Numeral(n) + "/search?" + q == p + Numeral(n') + "/search?" + q'
    ensures n == n' && q == q'
  {
    var a, b, x, y := Numeral(n), Numeral(n'), "search?" + q, "search?" + q';
    assert a + ['/'] + x == b + ['/'] + y by {
      OtherURLShape(p, a, q);
      OtherURLShape(p, b, q');
      DropPrefix(p, a + ['/'] + x, b + ['/'] + y);
    }
    NumeralHasNoSlash(n);
    NumeralHasNoSlash(n');
    CutUnique(a, x, b, y, '/');
    DropPrefix("search?", q, q');
    NumeralInjective(n, n');
  }

  lemma FirstLetter(r: Request, s: int, o: int)
    requires r.keyword != []
    ensures DedupURL(r, s, o) != "" && DedupURL(r, s, o)[0] == if r.platform == MERCARI then 'h' else 'g'
  {
  }

  /**
  A Mercari URL names exactly one search: keyword, exclude keywords that are not blank in their order, effective
  price bounds, sort and order.
  */
  lemma MercariURLNamesOneSearch(
    r: Request, ex: seq<seq<Byte>>, s: int, o: int, r': Request, ex': seq<seq<Byte>>, s': int, o': int)
    requires AcceptedSort(s, o) && AcceptedSort(s', o')
    ensures MercariURL(r, ex, s, o) == MercariURL(r', ex', s', o') <==>
              && r.keyword == r'.keyword && Telling(ex) == Telling(ex') && s == s' && o == o'
              && MercariLeast(r.minPrice) == MercariLeast(r'.minPrice) && MostPrice(r) == MostPrice(r')
  {
    if MercariURL(r, ex, s, o) == MercariURL(r', ex', s', o') {
      SameMercariURL(r, ex, s, o, r', ex', s', o');
    }
  }

  lemma SameMercariURL(
    r: Request, ex: seq<seq<Byte>>, s: int, o: int, r': Request, ex': seq<seq<Byte>>, s': int, o': int)
    requires AcceptedSort(s, o) && AcceptedSort(s', o') && MercariURL(r, ex, s, o) == MercariURL(r', ex', s', o')
    ensures r.keyword == r'.keyword && Telling(ex) == Telling(ex') && s == s' && o == o'
    ensures MercariLeast(r.minPrice) == MercariLeast(r'.minPrice) && MostPrice(r) == MostPrice(r')
  {
    var v, w := MercariValues(r, ex, s, o), MercariValues(r', ex', s', o');
    MercariHasShape(r, ex, s, o);
    MercariHasShape(r', ex', s', o');
    assert v == w by {
      DropPrefix("https://jp.mercari.com/search?", Join(Pairs(v, SORTED_KEYS), false), Join(Pairs(w, SORTED_KEYS), false));
      EncodeInjective(v, w, false);
    }
    ShapeTells(v, r, ex, s, o, r', ex', s', o');
  }

  lemma SameKeySameSearch(r: Request, s: int, o: int, r': Request, s': int, o': int)
    requires r.keyword != [] && r'.keyword != [] && AcceptedSort(s, o) && AcceptedSort(s', o')
    requires DedupURL(r, s, o) == DedupURL(r', s', o')
    ensures SameSearch(r, s, o, r', s', o')
  {
    FirstLetter(r, s, o);
    FirstLetter(r', s', o');
    if r.platform == MERCARI && r'.platform == MERCARI {
      MercariURLNamesOneSearch(r, [], s, o, r', [], s', o');
    } else if r.platform != MERCARI && r'.platform != MERCARI {
      SameOtherKey(r, s, o, r', s', o');
    }
  }

  lemma SameOtherURL(platform: int, v: Values, platform': int, w: Values)
    requires NoneEmpty(v) && NoneEmpty(w)
    requires "goodshunter://platform-" + Numeral(platform) + "/search?" + Join(Pairs(v, SORTED_KEYS), true)
             == "goodshunter://platform-" + Numeral(platform') + "/search?" + Join(Pairs(w, SORTED_KEYS), true)
    ensures platform == platform' && v == w
  {
    OtherURLsTell("goodshunter://platform-", platform, Join(Pairs(v, SORTED_KEYS), true),
                  platform', Join(Pairs(w, SORTED_KEYS), true));
    EncodeInjective(v, w, true);
  }

  lemma SameOtherKey(r: Request, s: int, o: int, r': Request, s': int, o': int)
    requires r.keyword != [] && r'.keyword != [] && r.platform != MERCARI && r'.platform != MERCARI
    requires DedupURL(r, s, o) == DedupURL(r', s', o')
    ensures SameSearch(r, s, o, r', s', o')
  {
    var v, w := OtherValues(r, s, o), OtherValues(r', s', o');
    OtherHasShape(r, s, o);
    OtherHasShape(r', s', o');
    SameOtherURL(r.platform, v, r'.platform, w);
    OtherShapeTells(v, r, s, o, r', s', o');
  }

  /** A search key names exactly one search. */
  lemma KeyNamesOneSearch(r: Request, s: int, o: int, r': Request, s': int, o': int)
    requires r.keyword != [] && r'.keyword != [] && AcceptedSort(s, o) && AcceptedSort(s', o')
    ensures DedupURL(r, s, o) == DedupURL(r', s', o') <==> SameSearch(r, s, o, r', s', o')
  {
    if DedupURL(r, s, o) == DedupURL(r', s', o') {
      SameKeySameSearch(r, s, o, r', s', o');
    }
  }
}
