/**
What a search URL says to whoever reads it: its query is cut at `&` and `=`, unescaped, and looked up by name.
*/
module SearchQuery {
  import opened Decimal
  import opened SearchKey

  // ---------------------------------------------------------------- reading a query

  /** One `name=value`, the value unescaped to bytes. */
  datatype Named = Named(name: string, value: seq<int>)

  /** The place of the first separator, or the end. */
  function CutAt(t: string, sep: char): (k: nat)
    ensures k <= |t| && (forall i :: 0 <= i < k ==> t[i] != sep) && (k < |t| ==> t[k] == sep)
  {
    if t == "" || t[0] == sep then 0 else 1 + CutAt(t[1..], sep)
  }

  function ReadField(t: string): Named {
    var k := CutAt(t, '=');
    Named(t[..k], if k < |t| then Unescape(t[k + 1..]) else [])
  }

  function ReadQuery(q: string): seq<Named>
    decreases |q|
  {
    if q == "" then []
    else
      var k := CutAt(q, '&');
      [ReadField(q[..k])] + if k < |q| then ReadQuery(q[k + 1..]) else []
  }

  /** All values given to a name, in order. */
  function ValuesNamed(fields: seq<Named>, name: string): seq<seq<int>> {
    if fields == [] then []
    else (if fields[0].name == name then [fields[0].value] else []) + ValuesNamed(fields[1..], name)
  }

  /** The bytes of an ASCII text. */
  function Ascii(t: string): (s: seq<int>)
    ensures |s| == |t| && forall i :: 0 <= i < |t| ==> s[i] == t[i] as int
  {
    seq(|t|, i requires 0 <= i < |t| => t[i] as int)
  }

  // ---------------------------------------------------------------- written queries read back

  function NamedPair(p: Pair): Named {
    Named(KeyText(p.key), p.value)
  }

  function NamedPairs(ps: seq<Pair>): seq<Named> {
    if ps == [] then [] else [NamedPair(ps[0])] + NamedPairs(ps[1..])
  }

  lemma CutBefore(a: string, sep: char, b: string)
    requires forall i :: 0 <= i < |a| ==> a[i] != sep
    ensures CutAt(a + [sep] + b, sep) == |a| && (a + [sep] + b)[..|a|] == a && (a + [sep] + b)[|a| + 1..] == b
    ensures CutAt(a, sep) == |a|
  {
    var t, k := a + [sep] + b, CutAt(a + [sep] + b, sep);
    assert t[|a|] == sep;
    assert forall i :: 0 <= i < |a| ==> t[i] == a[i];
  }

  lemma FieldReadsBack(p: Pair, plus: bool)
    ensures ReadField(FieldText(p, plus)) == NamedPair(p)
  {
    var name, text := KeyText(p.key), Escape(p.value, plus);
    KeyTextPlain(p.key);
    CutBefore(name, '=', text);
    assert FieldText(p, plus) == name + ['='] + text;
    EscapeRoundTrip(p.value, plus);
  }

  lemma {:induction false} QueryReadsBack(ps: seq<Pair>, plus: bool)
    ensures ReadQuery(Join(ps, plus)) == NamedPairs(ps)
  {
    if ps != [] {
      var f := FieldText(ps[0], plus);
      FieldHasNoAmpersand(ps[0], plus);
      FieldReadsBack(ps[0], plus);
      QueryReadsBack(ps[1..], plus);
      if |ps| == 1 {
        LastFieldReads(f);
        assert Join(ps, plus) == f + "";
      } else {
        FieldAndMoreReads(f, Join(ps[1..], plus));
        assert Join(ps, plus) == f + ("&" + Join(ps[1..], plus));
      }
    }
  }

  lemma LastFieldReads(f: string)
    requires f != "" && forall i :: 0 <= i < |f| ==> f[i] != '&'
    ensures ReadQuery(f + "") == [ReadField(f)]
  {
    CutBefore(f, '&', "");
    assert f + "" == f && f[..|f|] == f;
  }

  lemma ReadStep(t: string, k: nat, f: string, rest: string)
    requires k < |t| && k == CutAt(t, '&') && t[..k] == f && t[k + 1..] == rest
    ensures ReadQuery(t) == [ReadField(f)] + ReadQuery(rest)
  {
  }

  lemma FieldAndMoreReads(f: string, rest: string)
    requires f != "" && forall i :: 0 <= i < |f| ==> f[i] != '&'
    ensures ReadQuery(f + ("&" + rest)) == [ReadField(f)] + ReadQuery(rest)
  {
    var t := f + ['&'] + rest;
    assert f + ("&" + rest) == t;
    CutBefore(f, '&', rest);
    ReadStep(t, |f|, f, rest);
  }

  lemma {:induction false} ValuesOfConcat(a: seq<Pair>, b: seq<Pair>, name: string)
    ensures ValuesNamed(NamedPairs(a + b), name) == ValuesNamed(NamedPairs(a), name) + ValuesNamed(NamedPairs(b), name)
  {
    if a == [] {
      assert a + b == b;
    } else {
      assert (a + b)[1..] == a[1..] + b;
      ValuesOfConcat(a[1..], b, name);
    }
  }

  lemma {:induction false} ValuesOfKey(k: Key, texts: seq<seq<Byte>>, name: string)
    ensures ValuesNamed(NamedPairs(KeyPairs(k, texts)), name) == if KeyText(k) == name then texts else []
  {
    if texts != [] {
      assert KeyPairs(k, texts)[1..] == KeyPairs(k, texts[1..]);
      ValuesOfKey(k, texts[1..], name);
    }
  }

  /** Looking up a parameter's name among the written pairs gives the parameter's values. */
  lemma {:induction false} LookUp(values: Values, keys: seq<Key>, k: Key)
    requires forall i, j :: 0 <= i < j < |keys| ==> keys[i] != keys[j]
    ensures ValuesNamed(NamedPairs(Pairs(values, keys)), KeyText(k)) == if k in keys && k in values then values[k] else []
  {
    if keys != [] {
      ValuesOfConcat(PairsOf(values, keys[0]), Pairs(values, keys[1..]), KeyText(k));
      if keys[0] in values {
        ValuesOfKey(keys[0], values[keys[0]], KeyText(k));
      }
      if KeyText(keys[0]) == KeyText(k) {
        KeyTextInjective(keys[0], k);
      }
      LookUp(values, keys[1..], k);
    }
  }

  lemma {:induction false} OnlyListedNames(ps: seq<Pair>, x: Named) returns (i: nat)
    requires x in NamedPairs(ps)
    ensures i < |ps| && x == NamedPair(ps[i])
  {
    if x == NamedPair(ps[0]) {
      i := 0;
    } else {
      i := OnlyListedNames(ps[1..], x);
      i := i + 1;
    }
  }

  lemma {:induction false} PairsComeFromValues(values: Values, keys: seq<Key>)
    ensures forall i :: 0 <= i < |Pairs(values, keys)| ==> Pairs(values, keys)[i].key in values
  {
    if keys != [] {
      PairsComeFromValues(values, keys[1..]);
    }
  }

  /** Reading the query of the parameters `values`: each name has its values, and there are no other names. */
  lemma QuerySays(values: Values, plus: bool, k: Key)
    ensures ValuesNamed(ReadQuery(Join(Pairs(values, SORTED_KEYS), plus)), KeyText(k)) == if k in values then values[k] else []
  {
    QueryReadsBack(Pairs(values, SORTED_KEYS), plus);
    KeysListedOnce();
    KeyIsListed(k);
    LookUp(values, SORTED_KEYS, k);
  }

  lemma NamesAreSet(values: Values, plus: bool, x: Named) returns (k: Key)
    requires x in ReadQuery(Join(Pairs(values, SORTED_KEYS), plus))
    ensures k in values && x.name == KeyText(k)
  {
    QueryReadsBack(Pairs(values, SORTED_KEYS), plus);
    var i := OnlyListedNames(Pairs(values, SORTED_KEYS), x);
    PairsComeFromValues(values, SORTED_KEYS);
    k := Pairs(values, SORTED_KEYS)[i].key;
  }

  // ---------------------------------------------------------------- what the URLs say

  /** The part of a URL behind the prefix, read as a query. */
  function QueryOf(url: string, prefix: string): seq<Named>
    requires |prefix| <= |url|
  {
    ReadQuery(url[|prefix|..])
  }

  /** The exclude keywords that are not blank, from the front. */
  function NotBlank(excludes: seq<seq<Byte>>): seq<seq<Byte>> {
    if excludes == [] then []
    else (if BlankText(excludes[0]) then [] else [excludes[0]]) + NotBlank(excludes[1..])
  }

  lemma {:induction false} NotBlankConcat(a: seq<seq<Byte>>, x: seq<Byte>)
    ensures NotBlank(a + [x]) == NotBlank(a) + if BlankText(x) then [] else [x]
  {
    if a == [] {
      assert a + [x] == [x] && [x][1..] == [];
    } else {
      assert (a + [x])[1..] == a[1..] + [x];
      NotBlankConcat(a[1..], x);
    }
  }

  lemma {:induction false} TellingIsNotBlank(excludes: seq<seq<Byte>>)
    ensures Telling(excludes) == NotBlank(excludes)
  {
    if excludes != [] {
      var n := |excludes| - 1;
      TellingIsNotBlank(excludes[..n]);
      NotBlankConcat(excludes[..n], excludes[n]);
      assert excludes == excludes[..n] + [excludes[n]];
    }
  }

  lemma BytesAreAscii(t: string)
    requires forall i :: 0 <= i < |t| ==> t[i] as int < 256
    ensures Bytes(t) == Ascii(t)
  {
  }

  lemma BehindPrefix(prefix: string, text: string)
    ensures prefix <= prefix + text && QueryOf(prefix + text, prefix) == ReadQuery(text)
  {
    assert (prefix + text)[|prefix|..] == text;
  }

  /** Each parameter's name has the parameter's values. */
  ghost predicate Tells(q: seq<Named>, v: Values) {
    forall k: Key :: TellsOf(q, v, k)
  }

  predicate TellsOf(q: seq<Named>, v: Values, k: Key) {
    ValuesNamed(q, KeyText(k)) == if k in v then v[k] else []
  }

  lemma QueryTells(v: Values, plus: bool)
    ensures Tells(ReadQuery(Join(Pairs(v, SORTED_KEYS), plus)), v)
  {
    forall k: Key
      ensures TellsOf(ReadQuery(Join(Pairs(v, SORTED_KEYS), plus)), v, k)
    {
      QuerySays(v, plus, k);
    }
  }

  lemma TellsByName(q: seq<Named>, v: Values, k: Key, name: string)
    requires Tells(q, v) && KeyText(k) == name
    ensures ValuesNamed(q, name) == if k in v then v[k] else []
  {
    assert TellsOf(q, v, k);
  }

  /** The written values, letter by letter. */
  lemma ValueTexts(sortBy: int, order: int)
    ensures ON_SALE == Ascii("on_sale") && OrderValue(order) == Ascii(if order == 1 then "asc" else "desc")
    ensures SortValue(sortBy) == Ascii(if sortBy == 1 then "price" else if sortBy == 2 then "score"
                                       else if sortBy == 3 then "num_likes" else "created_time")
  {
    BytesAreAscii("on_sale");
    BytesAreAscii(if order == 1 then "asc" else "desc");
    BytesAreAscii(if sortBy == 1 then "price" else if sortBy == 2 then "score"
                  else if sortBy == 3 then "num_likes" else "created_time");
  }

  lemma BoundText(n: int)
    ensures Number(n) == Ascii(Numeral(n)) && (n >= 0 ==> Numeral(n) == Digits(n))
  {
  }

  /** What a Mercari query says of the words: keyword, status, exclude keywords, sort and order. */
  lemma MercariWords(q: seq<Named>, v: Values, r: Request, excludes: seq<seq<Byte>>, sortBy: int, order: int)
    requires Tells(q, v) && MercariShape(v, r, excludes, sortBy, order)
    ensures ValuesNamed(q, "keyword") == (if r.keyword == [] then [] else [r.keyword])
    ensures ValuesNamed(q, "status") == [Ascii("on_sale")]
    ensures ValuesNamed(q, "exclude_keyword") == NotBlank(excludes)
    ensures ValuesNamed(q, "sort") ==
              [Ascii(if sortBy == 1 then "price" else if sortBy == 2 then "score"
                     else if sortBy == 3 then "num_likes" else "created_time")]
    ensures ValuesNamed(q, "order") == [Ascii(if order == 1 then "asc" else "desc")]
  {
    TellingIsNotBlank(excludes);
    ValueTexts(sortBy, order);
    TellsByName(q, v, Keyword, "keyword");
    TellsByName(q, v, Status, "status");
    TellsByName(q, v, ExcludeKeyword, "exclude_keyword");
    TellsByName(q, v, Sort, "sort");
    TellsByName(q, v, Order, "order");
  }

  lemma MercariBounds(q: seq<Named>, v: Values, r: Request, excludes: seq<seq<Byte>>, sortBy: int, order: int)
    requires Tells(q, v) && MercariShape(v, r, excludes, sortBy, order)
    ensures ValuesNamed(q, "price_min") ==
              (if r.minPrice <= 0 then [] else [Ascii(Digits(if r.minPrice < 300 then 300 else r.minPrice))])
    ensures ValuesNamed(q, "price_max") == (if r.maxPrice <= 0 then [] else [Ascii(Digits(r.maxPrice))])
  {
    BoundText(MercariLeast(r.minPrice));
    BoundText(MostPrice(r));
    TellsByName(q, v, PriceMin, "price_min");
    TellsByName(q, v, PriceMax, "price_max");
  }

  /** What a Mercari URL says, name by name. */
  lemma MercariURLSays(r: Request, excludes: seq<seq<Byte>>, sortBy: int, order: int)
    ensures var url, prefix := MercariURL(r, excludes, sortBy, order), "https://jp.mercari.com/search?";
            && prefix <= url
            && var q := QueryOf(url, prefix);
               && ValuesNamed(q, "keyword") == (if r.keyword == [] then [] else [r.keyword])
               && ValuesNamed(q, "status") == [Ascii("on_sale")]
               && ValuesNamed(q, "price_min") ==
                    (if r.minPrice <= 0 then [] else [Ascii(Digits(if r.minPrice < 300 then 300 else r.minPrice))])
               && ValuesNamed(q, "price_max") == (if r.maxPrice <= 0 then [] else [Ascii(Digits(r.maxPrice))])
               && ValuesNamed(q, "exclude_keyword") == NotBlank(excludes)
               && ValuesNamed(q, "sort") ==
                    [Ascii(if sortBy == 1 then "price" else if sortBy == 2 then "score"
                           else if sortBy == 3 then "num_likes" else "created_time")]
               && ValuesNamed(q, "order") == [Ascii(if order == 1 then "asc" else "desc")]
  {
    var v := MercariValues(r, excludes, sortBy, order);
    var text := Join(Pairs(v, SORTED_KEYS), false);
    BehindPrefix("https://jp.mercari.com/search?", text);
    QueryTells(v, false);
    MercariHasShape(r, excludes, sortBy, order);
    MercariWords(ReadQuery(text), v, r, excludes, sortBy, order);
    MercariBounds(ReadQuery(text), v, r, excludes, sortBy, order);
  }

  lemma OtherWords(q: seq<Named>, v: Values, r: Request, sortBy: int, order: int)
    requires Tells(q, v) && OtherShape(v, r, sortBy, order)
    ensures ValuesNamed(q, "keyword") == [r.keyword]
    ensures ValuesNamed(q, "sort_by") == [Ascii(Numeral(sortBy))]
    ensures ValuesNamed(q, "sort_order") == [Ascii(Numeral(order))]
  {
    BoundText(sortBy);
    BoundText(order);
    TellsByName(q, v, Keyword, "keyword");
    TellsByName(q, v, SortBy, "sort_by");
    TellsByName(q, v, SortOrder, "sort_order");
  }

  lemma OtherBounds(q: seq<Named>, v: Values, r: Request, sortBy: int, order: int)
    requires Tells(q, v) && OtherShape(v, r, sortBy, order) && r.platform != MERCARI
    ensures ValuesNamed(q, "min_price") == (if r.minPrice <= 0 then [] else [Ascii(Digits(r.minPrice))])
    ensures ValuesNamed(q, "max_price") == (if r.maxPrice <= 0 then [] else [Ascii(Digits(r.maxPrice))])
  {
    BoundText(LeastPrice(r));
    BoundText(MostPrice(r));
    TellsByName(q, v, MinPrice, "min_price");
    TellsByName(q, v, MaxPrice, "max_price");
  }

  /** What the key of another platform says, name by name. */
  lemma OtherKeySays(r: Request, sortBy: int, order: int)
    requires r.keyword != [] && r.platform != MERCARI
    ensures var url, prefix := DedupURL(r, sortBy, order), "goodshunter://platform-" + Numeral(r.platform) + "/search?";
            && prefix <= url
            && var q := QueryOf(url, prefix);
               && ValuesNamed(q, "keyword") == [r.keyword]
               && ValuesNamed(q, "min_price") == (if r.minPrice <= 0 then [] else [Ascii(Digits(r.minPrice))])
               && ValuesNamed(q, "max_price") == (if r.maxPrice <= 0 then [] else [Ascii(Digits(r.maxPrice))])
               && ValuesNamed(q, "sort_by") == [Ascii(Numeral(sortBy))]
               && ValuesNamed(q, "sort_order") == [Ascii(Numeral(order))]
  {
    var v := OtherValues(r, sortBy, order);
    var text := Join(Pairs(v, SORTED_KEYS), true);
    BehindPrefix("goodshunter://platform-" + Numeral(r.platform) + "/search?", text);
    QueryTells(v, true);
    OtherHasShape(r, sortBy, order);
    OtherWords(ReadQuery(text), v, r, sortBy, order);
    OtherBounds(ReadQuery(text), v, r, sortBy, order);
  }

  lemma MercariName(v: Values, r: Request, excludes: seq<seq<Byte>>, sortBy: int, order: int, k: Key)
    requires MercariShape(v, r, excludes, sortBy, order) && k in v
    ensures k.Keyword? || k.Status? || k.PriceMin? || k.PriceMax? || k.ExcludeKeyword? || k.Sort? || k.Order?
  {
  }

  lemma NameTexts(k: Key)
    requires k.Keyword? || k.Status? || k.PriceMin? || k.PriceMax? || k.ExcludeKeyword? || k.Sort? || k.Order?
    ensures var t := KeyText(k);
            t == "keyword" || t == "status" || t == "price_min" || t == "price_max" || t == "exclude_keyword"
            || t == "sort" || t == "order"
  {
  }

  /** A request without keyword has no key, and every other request has one. */
  lemma KeyNeedsKeyword(r: Request, sortBy: int, order: int)
    ensures DedupURL(r, sortBy, order) == "" <==> r.keyword == []
  {
    if r.keyword != [] {
      FirstLetter(r, sortBy, order);
    }
  }

  /** A Mercari URL has no other parameters than these. */
  lemma NoOtherParameters(r: Request, excludes: seq<seq<Byte>>, sortBy: int, order: int, x: Named)
    requires var url, prefix := MercariURL(r, excludes, sortBy, order), "https://jp.mercari.com/search?";
             |prefix| <= |url| && x in QueryOf(url, prefix)
    ensures x.name == "keyword" || x.name == "status" || x.name == "price_min" || x.name == "price_max"
            || x.name == "exclude_keyword" || x.name == "sort" || x.name == "order"
  {
    var v := MercariValues(r, excludes, sortBy, order);
    BehindPrefix("https://jp.mercari.com/search?", Join(Pairs(v, SORTED_KEYS), false));
    var k := NamesAreSet(v, false, x);
    assert MercariShape(v, r, excludes, sortBy, order) by {
      MercariHasShape(r, excludes, sortBy, order);
    }
    MercariName(v, r, excludes, sortBy, order, k);
    NameTexts(k);
  }
}
