/** `encodeParams` of vault/client.go, against a decoder of application/x-www-form-urlencoded
    (Appendix B of RFC 6749, percent-encoding as in section 2.1 of RFC 3986). */
module FormEncoding {
  import opened Prelude

  const AMP: byte := 38
  const EQUALS: byte := 61
  const PERCENT: byte := 37
  const PLUS: byte := 43
  const SPACE: byte := 32

  predicate Unreserved(c: byte) {
    65 <= c <= 90 || 97 <= c <= 122 || 48 <= c <= 57 || c == 45 || c == 95 || c == 46 || c == 126
  }

  function Hex(d: int): byte
    requires 0 <= d < 16
  {
    if d < 10 then (48 + d) as byte else (55 + d) as byte
  }

  function Unhex(c: byte): (d: int)
    ensures -1 <= d < 16
  {
    if 48 <= c <= 57 then c as int - 48
    else if 65 <= c <= 70 then c as int - 55
    else if 97 <= c <= 102 then c as int - 87
    else -1
  }

  function EscapeByte(c: byte): bytes {
    if Unreserved(c) then [c]
    else if c == SPACE then [PLUS]
    else [PERCENT, Hex(c as int / 16), Hex(c as int % 16)]
  }

  /** `url.QueryEscape`. */
  function Escape(s: bytes): bytes {
    if s == [] then [] else EscapeByte(s[0]) + Escape(s[1..])
  }

  function Pair(k: bytes, v: bytes): bytes { Escape(k) + [EQUALS] + Escape(v) }

  function Join(pairs: seq<bytes>): bytes {
    if pairs == [] then []
    else if |pairs| == 1 then pairs[0]
    else pairs[0] + [AMP] + Join(pairs[1..])
  }

  // ---------------------------------------------------------------- the decoder

  function Unescape(t: bytes): Option<bytes> {
    if t == [] then Some([])
    else if t[0] == PERCENT then
      if |t| < 3 || Unhex(t[1]) < 0 || Unhex(t[2]) < 0 then None
      else match Unescape(t[3..])
        case None => None
        case Some(s) => Some([(Unhex(t[1]) * 16 + Unhex(t[2])) as byte] + s)
    else match Unescape(t[1..])
      case None => None
      case Some(s) => Some([if t[0] == PLUS then SPACE else t[0]] + s)
  }

  /** The text up to the first separator, and what follows it. */
  function Cut(t: bytes, sep: byte): (r: (bytes, Option<bytes>))
    ensures r.1.Some? ==> |r.1.value| < |t|
  {
    if t == [] then ([], None)
    else if t[0] == sep then ([], Some(t[1..]))
    else
      var (before, after) := Cut(t[1..], sep);
      ([t[0]] + before, after)
  }

  function DecodePair(t: bytes): Option<(bytes, bytes)> {
    match Cut(t, EQUALS)
    case (_, None) => None
    case (k, Some(v)) =>
      match (Unescape(k), Unescape(v))
      case (Some(key), Some(value)) => Some((key, value))
      case _ => None
  }

  /** The parameters of a form body; a later pair of the same name wins. */
  function Decode(t: bytes): Option<map<bytes, bytes>>
    decreases |t|
  {
    if t == [] then Some(map[])
    else
      var (first, rest) := Cut(t, AMP);
      match (DecodePair(first), Decode(if rest.Some? then rest.value else []))
      case (Some((k, v)), Some(m)) => Some(map[k := v] + m)
      case _ => None
  }

  // ---------------------------------------------------------------- pairs come back

  predicate Clean(t: bytes) { AMP !in t && EQUALS !in t }

  lemma {:induction false} EscapeClean(s: bytes)
    ensures Clean(Escape(s))
  {
    if s != [] {
      EscapeClean(s[1..]);
    }
  }

  lemma HexBack(d: int)
    requires 0 <= d < 16
    ensures Unhex(Hex(d)) == d
  {}

  lemma {:induction false} UnescapeBack(s: bytes)
    ensures Unescape(Escape(s)) == Some(s)
  {
    if s != [] {
      var c, rest := s[0], Escape(s[1..]);
      UnescapeBack(s[1..]);
      HexBack(c as int / 16);
      HexBack(c as int % 16);
      assert (EscapeByte(c) + rest)[|EscapeByte(c)|..] == rest;
      assert s == [c] + s[1..];
    }
  }

  lemma {:induction false} CutAt(a: bytes, sep: byte, b: bytes)
    requires sep !in a
    ensures Cut(a + [sep] + b, sep) == (a, Some(b))
    ensures Cut(a, sep) == (a, None)
  {
    if a == [] {
      assert a + [sep] + b == [sep] + b;
    } else {
      assert (a + [sep] + b)[1..] == a[1..] + [sep] + b;
      CutAt(a[1..], sep, b);
      assert a == [a[0]] + a[1..];
    }
  }

  lemma PairBack(k: bytes, v: bytes)
    ensures DecodePair(Pair(k, v)) == Some((k, v))
    ensures AMP !in Pair(k, v) && Pair(k, v) != []
  {
    EscapeClean(k);
    EscapeClean(v);
    CutAt(Escape(k), EQUALS, Escape(v));
    UnescapeBack(k);
    UnescapeBack(v);
  }

  // ---------------------------------------------------------------- sorted listings

  /** The order of `sort.Strings`. */
  predicate Below(a: bytes, b: bytes) {
    a == [] || (b != [] && (a[0] < b[0] || (a[0] == b[0] && Below(a[1..], b[1..]))))
  }

  lemma {:induction false} BelowOrder(a: bytes, b: bytes, c: bytes)
    ensures Below(a, b) || Below(b, a)
    ensures Below(a, b) && Below(b, a) ==> a == b
    ensures Below(a, b) && Below(b, c) ==> Below(a, c)
  {
    if a != [] && b != [] {
      BelowOrder(a[1..], b[1..], if c == [] then [] else c[1..]);
      assert a == [a[0]] + a[1..] && b == [b[0]] + b[1..];
    }
  }

  ghost predicate Sorted(s: seq<bytes>) {
    forall i, j | 0 <= i < j < |s| :: Below(s[i], s[j])
  }

  /** The pairs of a map, each once, in order. */
  ghost predicate Listing(m: map<bytes, bytes>, pairs: seq<bytes>) {
    && Sorted(pairs) && Distinct(pairs)
    && (forall p | p in pairs :: exists k | k in m :: p == Pair(k, m[k]))
    && (forall k | k in m :: Pair(k, m[k]) in pairs)
  }

  ghost predicate IsForm(m: map<bytes, bytes>, r: bytes) {
    exists pairs :: Listing(m, pairs) && r == Join(pairs)
  }

  lemma {:induction false} SortedUnique(a: seq<bytes>, b: seq<bytes>)
    requires Sorted(a) && Sorted(b) && Distinct(a) && Distinct(b)
    requires forall p :: p in a <==> p in b
    ensures a == b
  {
    assert a == [] ==> b == [] by {
      assert forall i | 0 <= i < |b| :: b[i] in b && b[i] in a;
    }
    if a != [] {
      assert a[0] in a && a[0] in b;
      var i :| 0 <= i < |b| && b[i] == a[0];
      assert b[0] in b && b[0] in a;
      BelowOrder(a[0], b[0], []);
      assert Below(a[0], b[0]) && Below(b[0], a[0]);
      forall p ensures p in a[1..] <==> p in b[1..] {
        if p in a[1..] { assert p in a && p != a[0]; }
        if p in b[1..] { assert p in b && p != b[0]; }
      }
      SortedUnique(a[1..], b[1..]);
      assert a == [a[0]] + a[1..] && b == [b[0]] + b[1..];
    }
  }

  /** The output does not depend on the order in which the map is walked: there is only one. */
  lemma FormUnique(m: map<bytes, bytes>, r1: bytes, r2: bytes)
    requires IsForm(m, r1) && IsForm(m, r2)
    ensures r1 == r2
  {
    var a :| Listing(m, a) && r1 == Join(a);
    var b :| Listing(m, b) && r2 == Join(b);
    SortedUnique(a, b);
  }

  // ---------------------------------------------------------------- decoding undoes encoding

  lemma DecodeFirst(k: bytes, v: bytes, pairs: seq<bytes>)
    requires pairs != [] && pairs[0] == Pair(k, v) && Decode(Join(pairs[1..])).Some?
    ensures Decode(Join(pairs)) == Some(map[k := v] + Decode(Join(pairs[1..])).value)
  {
    PairBack(k, v);
    CutAt(pairs[0], AMP, Join(pairs[1..]));
  }

  lemma {:induction false} DecodeJoin(m: map<bytes, bytes>, pairs: seq<bytes>)
    requires Distinct(pairs)
    requires forall p | p in pairs :: exists k | k in m :: p == Pair(k, m[k])
    ensures Decode(Join(pairs)).Some?
    ensures forall k :: k in Decode(Join(pairs)).value <==> k in m && Pair(k, m[k]) in pairs
    ensures forall k | k in Decode(Join(pairs)).value :: Decode(Join(pairs)).value[k] == m[k]
  {
    if pairs != [] {
      assert pairs[0] in pairs;
      var k :| k in m && pairs[0] == Pair(k, m[k]);
      forall p | p in pairs[1..] ensures exists k | k in m :: p == Pair(k, m[k]) {
        assert p in pairs;
      }
      DecodeJoin(m, pairs[1..]);
      DecodeFirst(k, m[k], pairs);
      PairBack(k, m[k]);
      forall j | j in m && Pair(j, m[j]) == pairs[0] ensures j == k {
        PairBack(j, m[j]);
      }
    }
  }

  /** The form of a map, whatever bytes its names and values contain, decodes to the map. */
  lemma {:induction false} DecodeUndoesEncode(m: map<bytes, bytes>, r: bytes)
    requires IsForm(m, r)
    ensures Decode(r) == Some(m)
  {
    var pairs :| Listing(m, pairs) && r == Join(pairs);
    DecodeJoin(m, pairs);
    assert Decode(r).value == m;
  }

  // ---------------------------------------------------------------- what the form is written in

  /** Letters, digits, hyphen, full stop, low line and tilde (section 2.3 of RFC 3986). */
  predicate Unescaped(c: byte) {
    || 'A' as int <= c as int <= 'Z' as int || 'a' as int <= c as int <= 'z' as int
    || '0' as int <= c as int <= '9' as int
    || c as int == '-' as int || c as int == '.' as int || c as int == '_' as int || c as int == '~' as int
  }

  predicate UpperHex(c: byte) { '0' as int <= c as int <= '9' as int || 'A' as int <= c as int <= 'F' as int }

  /** Only unreserved characters and the four signs of a form; a percent sign is followed by two upper-case
      hexadecimal digits. */
  predicate Written(t: bytes) {
    forall i | 0 <= i < |t| :: WrittenAt(t, i)
  }

  predicate WrittenAt(t: bytes, i: nat)
    requires i < |t|
  {
    && (Unescaped(t[i]) || t[i] as char == '%' || t[i] as char == '+' || t[i] as char == '=' || t[i] as char == '&')
    && (t[i] as char == '%' ==> i + 2 < |t| && UpperHex(t[i + 1]) && UpperHex(t[i + 2]))
  }

  lemma WrittenJoin(a: bytes, b: bytes)
    requires Written(a) && Written(b)
    ensures Written(a + b)
  {
    var t := a + b;
    forall i | 0 <= i < |t|
      ensures WrittenAt(t, i)
    {
      assert if i < |a| then WrittenAt(a, i) else WrittenAt(b, i - |a|);
    }
  }

  /** An unreserved byte stands for itself, a space is a plus sign, any other byte is percent-encoded. */
  lemma EscapeByteSays(c: byte)
    ensures Unescaped(c) ==> EscapeByte(c) == [c]
    ensures c as char == ' ' ==> EscapeByte(c) == ['+' as byte]
    ensures !Unescaped(c) && c as char != ' ' ==>
              && |EscapeByte(c)| == 3 && EscapeByte(c)[0] as char == '%'
              && EscapeByte(c)[1] as char == "0123456789ABCDEF"[c as int / 16]
              && EscapeByte(c)[2] as char == "0123456789ABCDEF"[c as int % 16]
    ensures Written(EscapeByte(c))
  {
    HexSays(c as int / 16);
    HexSays(c as int % 16);
  }

  lemma HexSays(d: int)
    requires 0 <= d < 16
    ensures Hex(d) as char == "0123456789ABCDEF"[d] && UpperHex(Hex(d))
  {
    var t := "0123456789ABCDEF";
    assert d < 10 ==> t[d] as int == 48 + d;
    assert d >= 10 ==> t[d] as int == 55 + d;
  }

  lemma {:induction false} EscapeWritten(s: bytes)
    ensures Written(Escape(s))
  {
    if s != [] {
      EscapeByteSays(s[0]);
      EscapeWritten(s[1..]);
      WrittenJoin(EscapeByte(s[0]), Escape(s[1..]));
    }
  }

  lemma {:induction false} JoinWritten(pairs: seq<bytes>)
    requires forall p | p in pairs :: Written(p)
    ensures Written(Join(pairs))
  {
    if |pairs| > 1 {
      JoinWritten(pairs[1..]);
      WrittenJoin([AMP], Join(pairs[1..]));
      WrittenJoin(pairs[0], [AMP] + Join(pairs[1..]));
      assert pairs[0] + [AMP] + Join(pairs[1..]) == pairs[0] + ([AMP] + Join(pairs[1..]));
    }
  }

  /** The form is written in these characters, whatever bytes its names and values contain. */
  lemma FormWritten(m: map<bytes, bytes>, r: bytes)
    requires IsForm(m, r)
    ensures Written(r)
  {
    var pairs :| Listing(m, pairs) && r == Join(pairs);
    forall p | p in pairs ensures Written(p) {
      var k :| k in m && p == Pair(k, m[k]);
      EscapeWritten(k);
      EscapeWritten(m[k]);
      WrittenJoin(Escape(k), [EQUALS]);
      WrittenJoin(Escape(k) + [EQUALS], Escape(m[k]));
    }
    JoinWritten(pairs);
  }

  // ---------------------------------------------------------------- the code

  function InsertSorted(s: seq<bytes>, p: bytes): seq<bytes> {
    if s == [] || Below(p, s[0]) then [p] + s else [s[0]] + InsertSorted(s[1..], p)
  }

  lemma {:induction false} InsertSortedKeeps(s: seq<bytes>, p: bytes)
    requires Sorted(s)
    ensures Sorted(InsertSorted(s, p))
    ensures multiset(InsertSorted(s, p)) == multiset(s) + multiset{p}
  {
    if s == [] {
    } else if Below(p, s[0]) {
      forall j | 0 < j < |s| ensures Below(p, s[j]) {
        BelowOrder(p, s[0], s[j]);
      }
      assert multiset([p] + s) == multiset{p} + multiset(s);
    } else {
      BelowOrder(p, s[0], []);
      InsertSortedKeeps(s[1..], p);
      var r := InsertSorted(s[1..], p);
      assert s == [s[0]] + s[1..];
      forall j | 0 <= j < |r| ensures Below(s[0], r[j]) {
        assert r[j] in multiset(r);
        assert r[j] == p || r[j] in s[1..];
      }
    }
  }

  method SortStrings(s: seq<bytes>) returns (sorted: seq<bytes>)
    ensures Sorted(sorted) && multiset(sorted) == multiset(s)
  {
    sorted := [];
    for i := 0 to |s|
      invariant Sorted(sorted) && multiset(sorted) == multiset(s[..i])
    {
      InsertSortedKeeps(sorted, s[i]);
      assert s[..i + 1] == s[..i] + [s[i]];
      sorted := InsertSorted(sorted, s[i]);
    }
    assert s[..|s|] == s;
  }

  /** `encodeParams`: the pairs are collected in any order, sorted and joined. */
  method EncodeParams(params: map<bytes, bytes>) returns (r: bytes)
    ensures IsForm(params, r)
    ensures Decode(r) == Some(params)
    ensures Written(r)
  {
    var pairs := [];
    var todo := params.Keys;
    while todo != {}
      invariant todo <= params.Keys
      invariant Distinct(pairs)
      invariant forall p | p in pairs :: exists k | k in params.Keys - todo :: p == Pair(k, params[k])
      invariant forall k | k in params.Keys - todo :: Pair(k, params[k]) in pairs
      decreases todo
    {
      var k :| k in todo;
      PairBack(k, params[k]);
      forall j | j in params.Keys - todo ensures Pair(j, params[j]) != Pair(k, params[k]) {
        PairBack(j, params[j]);
      }
      assert Pair(k, params[k]) !in pairs;
      pairs := pairs + [Pair(k, params[k])];
      todo := todo - {k};
    }
    var sorted := SortStrings(pairs);
    SameElements(pairs, sorted);
    assert Listing(params, sorted);
    r := Join(sorted);
    DecodeUndoesEncode(params, r);
    FormWritten(params, r);
  }

  /** Sorting keeps what is in a list and that it is there once. */
  lemma SameElements(s: seq<bytes>, t: seq<bytes>)
    requires multiset(s) == multiset(t) && Distinct(s)
    ensures Distinct(t) && forall p :: p in t <==> p in s
  {
    forall p ensures p in t <==> p in s {
      assert p in multiset(s) <==> p in multiset(t);
    }
    forall i, j | 0 <= i < j < |t| ensures t[i] != t[j] {
      if t[i] == t[j] {
        assert t == t[..i] + [t[i]] + t[i + 1..j] + [t[j]] + t[j + 1..];
        assert multiset(t)[t[i]] >= 2;
        DistinctOnce(s, t[i]);
      }
    }
  }

  lemma {:induction false} DistinctOnce(s: seq<bytes>, p: bytes)
    requires Distinct(s)
    ensures multiset(s)[p] <= 1
  {
    if s != [] {
      DistinctOnce(s[1..], p);
      assert s == [s[0]] + s[1..];
      if s[0] == p {
        assert p !in s[1..];
      }
    }
  }
}
