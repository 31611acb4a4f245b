/**
 * Go's `url.Values` and its `Encode` method: a list of key/value pairs is
 * serialised in ascending key order as `key=value` items joined by `&`, with
 * every key and value escaped by `url.QueryEscape`. Values that share a key
 * keep the order in which they were added, which a stable sort by key gives.
 *
 * `DecodeQuery` is the reading side of the same format (the
 * application/x-www-form-urlencoded parser): it is the partner against
 * which `Encode` is proved faithful.
 */
module UrlValues {
  import opened Wrappers
  import opened ByteStrings
  import opened QueryEscape

  datatype Pair = Pair(key: Bytes, value: Bytes)

  /** The pairs with key `k`, in order. */
  function KeyFilter(ps: seq<Pair>, k: Bytes): seq<Pair>
  {
    if ps == [] then []
    else (if ps[0].key == k then [ps[0]] else []) + KeyFilter(ps[1..], k)
  }

  /** `Values.Get`: the first value stored under `k`, if any. */
  function Lookup(ps: seq<Pair>, k: Bytes): Option<Bytes>
  {
    var hits := KeyFilter(ps, k);
    if hits == [] then None else Some(hits[0].value)
  }

  /** Keys never decrease from one pair to the next. */
  predicate SortedByKey(ps: seq<Pair>)
  {
    forall i :: 0 < i < |ps| ==> LexLe(ps[i - 1].key, ps[i].key)
  }

  /** Keys strictly increase from one pair to the next. */
  predicate StrictlyAscending(ps: seq<Pair>)
  {
    forall i :: 0 < i < |ps| ==> LexLe(ps[i - 1].key, ps[i].key) && ps[i - 1].key != ps[i].key
  }

  /** Puts `p` in front of the first pair whose key is not smaller. */
  function InsertByKey(p: Pair, s: seq<Pair>): (r: seq<Pair>)
    ensures |r| == |s| + 1
    ensures r[0] == p || (s != [] && r[0] == s[0])
  {
    if s == [] || LexLe(p.key, s[0].key) then [p] + s
    else [s[0]] + InsertByKey(p, s[1..])
  }

  /** Stable insertion sort by key. */
  function SortByKey(ps: seq<Pair>): seq<Pair>
  {
    if ps == [] then [] else InsertByKey(ps[0], SortByKey(ps[1..]))
  }

  function EncodePair(p: Pair): Bytes
  {
    Escape(p.key) + ['='] + Escape(p.value)
  }

  /** `key=value` items joined by `&`. */
  function JoinPairs(ps: seq<Pair>): Bytes
  {
    if ps == [] then []
    else if |ps| == 1 then EncodePair(ps[0])
    else EncodePair(ps[0]) + ['&'] + JoinPairs(ps[1..])
  }

  /** `Values.Encode`. */
  function Encode(ps: seq<Pair>): Bytes
  {
    JoinPairs(SortByKey(ps))
  }

  /** The position of the first `c` in `s`, or `|s|` when there is none. */
  function IndexOf(s: Bytes, c: Byte): (i: nat)
    ensures i <= |s|
    ensures forall j :: 0 <= j < i ==> s[j] != c
    ensures i < |s| ==> s[i] == c
  {
    if s == [] then 0 else if s[0] == c then 0 else 1 + IndexOf(s[1..], c)
  }

  /** Splits one `key=value` item at its first `=` and unescapes both halves. */
  function DecodePair(item: Bytes): Option<Pair>
  {
    var j := IndexOf(item, '=');
    var key := item[..j];
    var value := if j < |item| then item[j + 1..] else [];
    match Unescape(key)
    case None => None
    case Some(k) =>
      match Unescape(value)
      case None => None
      case Some(v) => Some(Pair(k, v))
  }

  /** Splits a query at `&`, skipping empty items, and decodes every item. */
  function DecodeQuery(s: Bytes): Option<seq<Pair>>
    decreases |s|
  {
    if s == [] then Some([])
    else
      var i := IndexOf(s, '&');
      var item := s[..i];
      var rest := if i < |s| then s[i + 1..] else [];
      if item == [] then DecodeQuery(rest)
      else
        match DecodePair(item)
        case None => None
        case Some(p) =>
          match DecodeQuery(rest)
          case None => None
          case Some(tail) => Some([p] + tail)
  }

  // ---------------------------------------------------------------------
  // The key filter

  lemma {:induction false} KeyFilterConcat(a: seq<Pair>, b: seq<Pair>, k: Bytes)
    ensures KeyFilter(a + b, k) == KeyFilter(a, k) + KeyFilter(b, k)
  {
    if a != [] {
      assert (a + b)[1..] == a[1..] + b;
      KeyFilterConcat(a[1..], b, k);
    } else {
      assert a + b == b;
    }
  }

  lemma {:induction false} KeyFilterHasOne(s: seq<Pair>, j: nat, k: Bytes)
    requires j < |s| && s[j].key == k
    ensures |KeyFilter(s, k)| >= 1
  {
    if j > 0 {
      KeyFilterHasOne(s[1..], j - 1, k);
    }
  }

  lemma {:induction false} KeyFilterHasTwo(s: seq<Pair>, i: nat, j: nat, k: Bytes)
    requires i < j < |s| && s[i].key == k && s[j].key == k
    ensures |KeyFilter(s, k)| >= 2
  {
    if i == 0 {
      KeyFilterHasOne(s[1..], j - 1, k);
    } else {
      KeyFilterHasTwo(s[1..], i - 1, j - 1, k);
    }
  }

  /** A key-sorted list in which no key occurs twice has strictly ascending keys. */
  lemma SortedUniqueAscending(s: seq<Pair>)
    requires SortedByKey(s)
    requires forall k :: |KeyFilter(s, k)| <= 1
    ensures StrictlyAscending(s)
  {
    forall i | 0 < i < |s|
      ensures s[i - 1].key != s[i].key
    {
      if s[i - 1].key == s[i].key {
        KeyFilterHasTwo(s, i - 1, i, s[i].key);
      }
    }
  }

  /** In a key-sorted list every key is at most every later key, not just the next one. */
  lemma {:induction false} SortedPairwise(s: seq<Pair>, i: nat, j: nat)
    requires SortedByKey(s) && i <= j < |s|
    ensures LexLe(s[i].key, s[j].key)
    decreases j - i
  {
    if i == j {
      LexLeReflexive(s[i].key);
    } else {
      SortedPairwise(s, i, j - 1);
      LexLeTransitive(s[i].key, s[j - 1].key, s[j].key);
    }
  }

  /** Keys that strictly increase from each pair to the next are all distinct. */
  lemma AscendingKeysDistinct(s: seq<Pair>)
    requires StrictlyAscending(s)
    ensures forall i, j :: 0 <= i < j < |s| ==> s[i].key != s[j].key
  {
    assert SortedByKey(s);
    forall i, j | 0 <= i < j < |s|
      ensures s[i].key != s[j].key
    {
      SortedPairwise(s, i, j - 1);
      if s[i].key == s[j].key {
        LexLeAntisymmetric(s[j - 1].key, s[j].key);
      }
    }
  }

  // ---------------------------------------------------------------------
  // Sorting

  /** Inserting into a key-sorted list keeps it key-sorted. */
  lemma {:induction false} InsertSorted(p: Pair, s: seq<Pair>)
    requires SortedByKey(s)
    ensures SortedByKey(InsertByKey(p, s))
  {
    var r := InsertByKey(p, s);
    if s == [] || LexLe(p.key, s[0].key) {
      assert r == [p] + s;
    } else {
      var tail := InsertByKey(p, s[1..]);
      InsertSorted(p, s[1..]);
      LexLeTotal(p.key, s[0].key);
      assert r == [s[0]] + tail;
      assert LexLe(s[0].key, tail[0].key);
    }
  }

  /** Inserting `p` adds it in front of the pairs sharing its key and leaves every other key's pairs alone. */
  lemma {:induction false} InsertFilter(p: Pair, s: seq<Pair>, k: Bytes)
    ensures KeyFilter(InsertByKey(p, s), k) == (if p.key == k then [p] else []) + KeyFilter(s, k)
  {
    if s == [] || LexLe(p.key, s[0].key) {
      KeyFilterConcat([p], s, k);
    } else {
      var tail := InsertByKey(p, s[1..]);
      LexLeReflexive(p.key);
      assert s[0].key != p.key;
      InsertFilter(p, s[1..], k);
      KeyFilterConcat([s[0]], tail, k);
      KeyFilterConcat([s[0]], s[1..], k);
      assert [s[0]] + s[1..] == s;
    }
  }

  lemma {:induction false} InsertPermutes(p: Pair, s: seq<Pair>)
    ensures multiset(InsertByKey(p, s)) == multiset(s) + multiset{p}
  {
    if s != [] && !LexLe(p.key, s[0].key) {
      InsertPermutes(p, s[1..]);
      assert s == [s[0]] + s[1..];
    }
  }

  /** The sorted list is ordered by key. */
  lemma {:induction false} SortSorted(ps: seq<Pair>)
    ensures SortedByKey(SortByKey(ps))
  {
    if ps != [] {
      SortSorted(ps[1..]);
      InsertSorted(ps[0], SortByKey(ps[1..]));
    }
  }

  /** Sorting is stable: the pairs under any one key come out in their original order. */
  lemma {:induction false} SortFilter(ps: seq<Pair>, k: Bytes)
    ensures KeyFilter(SortByKey(ps), k) == KeyFilter(ps, k)
  {
    if ps != [] {
      SortFilter(ps[1..], k);
      InsertFilter(ps[0], SortByKey(ps[1..]), k);
    }
  }

  /** Sorting is a permutation. */
  lemma {:induction false} SortPermutes(ps: seq<Pair>)
    ensures multiset(SortByKey(ps)) == multiset(ps)
  {
    if ps != [] {
      SortPermutes(ps[1..]);
      InsertPermutes(ps[0], SortByKey(ps[1..]));
      assert ps == [ps[0]] + ps[1..];
    }
  }

  /** `Get` sees the same value before and after sorting. */
  lemma SortLookup(ps: seq<Pair>, k: Bytes)
    ensures Lookup(SortByKey(ps), k) == Lookup(ps, k)
  {
    SortFilter(ps, k);
  }

  // ---------------------------------------------------------------------
  // Decoding undoes encoding

  lemma IndexOfFirst(a: Bytes, c: Byte, b: Bytes)
    requires c !in a
    ensures IndexOf(a + [c] + b, c) == |a|
  {
    assert (a + [c] + b)[|a|] == c;
  }

  lemma IndexOfAbsent(a: Bytes, c: Byte)
    requires c !in a
    ensures IndexOf(a, c) == |a|
  {
  }

  lemma DecodeEncodePair(p: Pair)
    ensures DecodePair(EncodePair(p)) == Some(p)
  {
    var ek, ev := Escape(p.key), Escape(p.value);
    var item := EncodePair(p);
    EscapeAvoidsSeparators(p.key);
    IndexOfFirst(ek, '=', ev);
    assert item[..|ek|] == ek;
    assert item[|ek| + 1..] == ev;
    UnescapeEscape(p.key);
    UnescapeEscape(p.value);
  }

  lemma EncodePairShape(p: Pair)
    ensures '&' !in EncodePair(p)
    ensures EncodePair(p) != []
  {
    EscapeAvoidsSeparators(p.key);
    EscapeAvoidsSeparators(p.value);
    assert EncodePair(p)[|Escape(p.key)|] == '=';
  }

  lemma DecodeLastItem(p: Pair)
    ensures DecodeQuery(EncodePair(p)) == Some([p])
  {
    var item := EncodePair(p);
    EncodePairShape(p);
    DecodeEncodePair(p);
    IndexOfAbsent(item, '&');
    assert item[..|item|] == item;
    assert DecodePair(item[..|item|]) == Some(p);
    assert DecodeQuery([]) == Some([]);
    assert DecodeQuery(item) == (match DecodePair(item[..|item|])
      case None => None
      case Some(q) => (match DecodeQuery([]) case None => None case Some(tail) => Some([q] + tail)));
    assert [p] + [] == [p];
  }

  lemma DecodeFirstItem(p: Pair, rest: Bytes, tail: seq<Pair>)
    requires DecodeQuery(rest) == Some(tail)
    ensures DecodeQuery(EncodePair(p) + ['&'] + rest) == Some([p] + tail)
  {
    var item := EncodePair(p);
    var s := item + ['&'] + rest;
    EncodePairShape(p);
    DecodeEncodePair(p);
    IndexOfFirst(item, '&', rest);
    assert IndexOf(s, '&') == |item| < |s|;
    assert s[..|item|] == item;
    assert s[|item| + 1..] == rest;
    assert DecodePair(s[..|item|]) == Some(p);
    assert s[..|item|] != [];
  }

  /** Joined items split back into the same pairs. */
  lemma {:induction false} DecodeJoin(ps: seq<Pair>)
    ensures DecodeQuery(JoinPairs(ps)) == Some(ps)
  {
    if |ps| == 1 {
      DecodeLastItem(ps[0]);
      assert JoinPairs(ps) == EncodePair(ps[0]);
      assert [ps[0]] == ps;
    } else if |ps| > 1 {
      DecodeJoin(ps[1..]);
      DecodeFirstItem(ps[0], JoinPairs(ps[1..]), ps[1..]);
      assert JoinPairs(ps) == EncodePair(ps[0]) + ['&'] + JoinPairs(ps[1..]);
      assert [ps[0]] + ps[1..] == ps;
    }
  }

  /**
   * The serialised query reads back as exactly the pairs in key order; with
   * `SortSorted`, `SortFilter` and `SortPermutes` this is a key-sorted
   * permutation that keeps the order of the values under every key.
   */
  lemma EncodeRoundTrip(ps: seq<Pair>)
    ensures DecodeQuery(Encode(ps)) == Some(SortByKey(ps))
  {
    DecodeJoin(SortByKey(ps));
  }
}
