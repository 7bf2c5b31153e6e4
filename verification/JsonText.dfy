/** When a text denotes a JSON tree, in the words of RFC 8259: white space of section 2 around every token,
    the escapes of section 7, and the last of the members of one name.  The parser reads exactly this. */
module JsonText {
  import opened Prelude
  import opened Json

  // ---------------------------------------------------------------- the grammar

  predicate Blank(s: string) {
    forall i | 0 <= i < |s| :: s[i] == ' ' || s[i] == '\t' || s[i] == '\n' || s[i] == '\r'
  }

  predicate HexIs(c: char, d: nat) {
    d < 16 && (c == "0123456789abcdef"[d] || c == "0123456789ABCDEF"[d])
  }

  /** The text starts with a \u escape of the code unit `n`. */
  ghost predicate CodeUnit(s: string, n: nat) {
    && |s| >= 6 && s[0] == '\\' && s[1] == 'u'
    && exists a: nat, b: nat, c: nat, d: nat ::
         HexIs(s[2], a) && HexIs(s[3], b) && HexIs(s[4], c) && HexIs(s[5], d) && n == a * 4096 + b * 256 + c * 16 + d
  }

  /** It starts with a pair of surrogates for the character. */
  ghost predicate Pair(s: string, c: char) {
    && |s| >= 12
    && exists h: nat, l: nat :: CodeUnit(s, h) && CodeUnit(s[6..], l)
                  && 0xD800 <= h < 0xDC00 <= l < 0xE000
                  && c as int == (h - 0xD800) * 0x400 + (l - 0xDC00) + 0x10000
  }

  /** A character that stands for itself. */
  predicate Plain(s: string, c: char) {
    s != "" && s[0] == c && s[0] as int >= 0x20 && s[0] != '\"' && s[0] != '\\'
  }

  /** A backslash and one more character. */
  predicate Short(s: string, c: char) {
    && |s| >= 2 && s[0] == '\\'
    && (|| (s[1] == '\"' && c == '\"') || (s[1] == '\\' && c == '\\') || (s[1] == '/' && c == '/')
        || (s[1] == 'b' && c as int == 8) || (s[1] == 'f' && c as int == 12) || (s[1] == 'n' && c as int == 10)
        || (s[1] == 'r' && c as int == 13) || (s[1] == 't' && c as int == 9))
  }

  ghost predicate Scalar(s: string, c: char) {
    exists k: nat :: CodeUnit(s, k) && !(0xD800 <= k < 0xE000) && c as int == k
  }

  /** A surrogate without its partner stands for the replacement character. */
  ghost predicate Lone(s: string, c: char) {
    && c as int == 0xFFFD && (forall p :: !Pair(s, p))
    && exists k: nat :: CodeUnit(s, k) && 0xD800 <= k < 0xE000
  }

  /** The first `n` characters of the text stand for `c`. */
  ghost predicate Unit(s: string, n: nat, c: char) {
    || (n == 1 && Plain(s, c)) || (n == 2 && Short(s, c))
    || (n == 6 && (Scalar(s, c) || Lone(s, c))) || (n == 12 && Pair(s, c))
  }

  /** The text between the quotes of a string. */
  ghost predicate Chars(s: string, v: string)
    decreases |s|
  {
    if v == "" then s == ""
    else exists n: nat | 1 <= n <= |s| :: Unit(s, n, v[0]) && Chars(s[n..], v[1..])
  }

  ghost predicate Quoted(s: string, v: string) {
    |s| >= 2 && s[0] == '\"' && s[|s| - 1] == '\"' && Chars(s[1..|s| - 1], v)
  }

  predicate NumberText(s: string) {
    && s != "" && (s[0] == '-' || '0' <= s[0] <= '9')
    && forall i | 0 <= i < |s| ::
         '0' <= s[i] <= '9' || s[i] == '-' || s[i] == '+' || s[i] == '.' || s[i] == 'e' || s[i] == 'E'
  }

  /** What a list of members says of a name: the last one counts. */
  function LastOf(raw: seq<Member>, key: string): Option<Json> {
    if raw == [] then None
    else if raw[|raw| - 1].key == key then Some(raw[|raw| - 1].value)
    else LastOf(raw[..|raw| - 1], key)
  }

  ghost predicate LastWins(raw: seq<Member>, members: seq<Member>) {
    SortedKeys(members) && forall m :: m in members <==> LastOf(raw, m.key) == Some(m.value)
  }

  /** A value without white space around it. */
  ghost predicate Value(num: NumberReader, s: string, t: Json)
    decreases |s|, 0
  {
    match t
    case Null => s == "null"
    case Bool(b) => s == if b then "true" else "false"
    case Num(token) => NumberText(s) && num(s) == Some(token)
    case Str(v) => Quoted(s, v)
    case Arr(items) => |s| >= 2 && s[0] == '[' && s[|s| - 1] == ']' && Items(num, s[1..|s| - 1], items)
    case Obj(members) =>
      && |s| >= 2 && s[0] == '{' && s[|s| - 1] == '}'
      && exists raw :: Members(num, s[1..|s| - 1], raw) && LastWins(raw, members)
  }

  /** White space, a value, white space. */
  ghost predicate Denotes(num: NumberReader, s: string, t: Json)
    decreases |s|, 1
  {
    exists a: nat, b: nat | a <= b <= |s| :: Blank(s[..a]) && Blank(s[b..]) && Value(num, s[a..b], t)
  }

  ghost predicate Items(num: NumberReader, s: string, items: seq<Json>)
    decreases |s|, 2
  {
    if items == [] then Blank(s)
    else if |items| == 1 then Denotes(num, s, items[0])
    else exists i: nat | i < |s| :: s[i] == ',' && Denotes(num, s[..i], items[0]) && Items(num, s[i + 1..], items[1..])
  }

  ghost predicate MemberText(num: NumberReader, s: string, m: Member)
    decreases |s|, 2
  {
    exists a: nat, b: nat, c: nat | a <= b <= c < |s| ::
      && Blank(s[..a]) && Quoted(s[a..b], m.key) && Blank(s[b..c])
      && s[c] == ':' && Denotes(num, s[c + 1..], m.value)
  }

  ghost predicate Members(num: NumberReader, s: string, raw: seq<Member>)
    decreases |s|, 3
  {
    if raw == [] then Blank(s)
    else if |raw| == 1 then MemberText(num, s, raw[0])
    else exists i: nat | i < |s| :: s[i] == ',' && MemberText(num, s[..i], raw[0]) && Members(num, s[i + 1..], raw[1..])
  }

  // ---------------------------------------------------------------- white space

  lemma {:induction false} SkipBlank(w: string, s: string)
    requires Blank(w) && (s != "" ==> !White(s[0]))
    ensures SkipWhite(w + s) == s
  {
    if w == "" {
      assert w + s == s;
    } else {
      assert (w + s)[1..] == w[1..] + s;
      SkipBlank(w[1..], s);
    }
  }

  lemma {:induction false} Skipped(s: string) returns (n: nat)
    ensures n <= |s| && Blank(s[..n]) && s[n..] == SkipWhite(s)
  {
    if s != "" && White(s[0]) {
      n := Skipped(s[1..]);
      n := n + 1;
      assert s[..n] == [s[0]] + s[1..][..n - 1];
    } else {
      n := 0;
    }
  }

  // ---------------------------------------------------------------- strings

  lemma HexValueIs(c: char, d: nat)
    ensures HexIs(c, d) <==> HexValue(c) == d
  {
    if d < 10 {
      assert "0123456789abcdef"[d] == '0' + d as char && "0123456789ABCDEF"[d] == '0' + d as char;
    } else if d < 16 {
      assert "0123456789abcdef"[d] == 'a' + (d - 10) as char && "0123456789ABCDEF"[d] == 'A' + (d - 10) as char;
    }
  }

  lemma CodeUnitIs(s: string, n: nat)
    ensures CodeUnit(s, n) <==> |s| >= 6 && s[0] == '\\' && s[1] == 'u' && Hex4(s[2..]) == n
  {
    if |s| >= 6 {
      forall d: nat, i | 2 <= i < 6 ensures HexIs(s[i], d) <==> HexValue(s[i]) == d {
        HexValueIs(s[i], d);
      }
      if Hex4(s[2..]) == n {
        var a, b, c, d := HexValue(s[2]), HexValue(s[3]), HexValue(s[4]), HexValue(s[5]);
        assert s[2..][0] == s[2] && s[2..][1] == s[3] && s[2..][2] == s[4] && s[2..][3] == s[5];
        if s[0] == '\\' && s[1] == 'u' {
          assert HexIs(s[2], a) && HexIs(s[3], b) && HexIs(s[4], c) && HexIs(s[5], d);
        }
      }
    }
  }

  /** The parser finds a pair of surrogates where there is one. */
  lemma PairIs(s: string, h: nat)
    requires CodeUnit(s, h)
    ensures var l := if |s| >= 12 then Hex4(s[8..]) else -1;
            var found := |s| >= 12 && s[6] == '\\' && s[7] == 'u' && 0xD800 <= h < 0xDC00 <= l < 0xE000;
            && (found ==> Pair(s, ((h - 0xD800) * 0x400 + (l - 0xDC00) + 0x10000) as char))
            && (forall c :: Pair(s, c) ==> found && c as int == (h - 0xD800) * 0x400 + (l - 0xDC00) + 0x10000)
  {
    forall k: nat ensures CodeUnit(s, k) ==> k == h { CodeUnitIs(s, k); CodeUnitIs(s, h); }
    if |s| >= 12 {
      assert s[6..][2..] == s[8..];
      forall l: nat ensures CodeUnit(s[6..], l) <==> s[6] == '\\' && s[7] == 'u' && Hex4(s[8..]) == l {
        CodeUnitIs(s[6..], l);
      }
      var l := Hex4(s[8..]);
      if l >= 0 && s[6] == '\\' && s[7] == 'u' {
        assert CodeUnit(s[6..], l);
      }
    }
  }

  lemma ScalarRead(s: string, c: char)
    requires Scalar(s, c)
    ensures |s| >= 6 && s[0] == '\\' && s[1] == 'u' && ReadUnicode(s) == Some((c, s[6..]))
  {
    var k: nat :| CodeUnit(s, k) && !(0xD800 <= k < 0xE000) && c as int == k;
    CodeUnitIs(s, k);
  }

  lemma LoneRead(s: string, c: char)
    requires Lone(s, c)
    ensures |s| >= 6 && s[0] == '\\' && s[1] == 'u' && ReadUnicode(s) == Some((c, s[6..]))
  {
    var k: nat :| CodeUnit(s, k) && 0xD800 <= k < 0xE000;
    CodeUnitIs(s, k);
    PairIs(s, k);
  }

  lemma PairRead(s: string, c: char)
    requires Pair(s, c)
    ensures |s| >= 12 && s[0] == '\\' && s[1] == 'u' && ReadUnicode(s) == Some((c, s[12..]))
  {
    var h, l := PairUnits(s, c);
    assert ReadUnicode(s).value.0 as int == c as int;
  }

  lemma PairUnits(s: string, c: char) returns (h: int, l: int)
    requires Pair(s, c)
    ensures |s| >= 12 && s[0] == '\\' && s[1] == 'u' && s[6] == '\\' && s[7] == 'u'
    ensures h == Hex4(s[2..]) && l == Hex4(s[8..]) && 0xD800 <= h < 0xDC00 <= l < 0xE000
    ensures c as int == (h - 0xD800) * 0x400 + (l - 0xDC00) + 0x10000
  {
    h, l :| h >= 0 && l >= 0 && CodeUnit(s, h) && CodeUnit(s[6..], l)
            && 0xD800 <= h < 0xDC00 <= l < 0xE000
            && c as int == (h - 0xD800) * 0x400 + (l - 0xDC00) + 0x10000;
    CodeUnitIs(s, h);
    SecondUnit(s, l);
  }

  lemma SecondUnit(s: string, l: nat)
    requires |s| >= 12 && CodeUnit(s[6..], l)
    ensures s[6] == '\\' && s[7] == 'u' && Hex4(s[8..]) == l
  {
    CodeUnitIs(s[6..], l);
    assert s[6..][2..] == s[8..];
  }

  lemma ShortRead(s: string, c: char)
    requires Short(s, c)
    ensures ReadChar(s) == Some((c, s[2..]))
  {}

  lemma UnicodeRead(s: string)
    requires |s| >= 2 && s[0] == '\\' && s[1] == 'u'
    ensures ReadChar(s) == ReadUnicode(s)
  {}

  /** A unit is what the parser reads as one character. */
  lemma UnitRead(s: string, n: nat, c: char)
    requires Unit(s, n, c)
    ensures s != "" && s[0] != '\"' && n <= |s| && ReadChar(s) == Some((c, s[n..]))
  {
    if n == 2 {
      ShortRead(s, c);
    } else if n == 6 && Scalar(s, c) {
      ScalarRead(s, c);
      UnicodeRead(s);
    } else if n == 6 {
      LoneRead(s, c);
      UnicodeRead(s);
    } else if n == 12 {
      PairRead(s, c);
      UnicodeRead(s);
    }
  }

  lemma ReadUnit(s: string) returns (n: nat)
    requires s != "" && s[0] != '\"' && ReadChar(s).Some?
    ensures 1 <= n <= |s| && ReadChar(s).value.1 == s[n..] && Unit(s, n, ReadChar(s).value.0)
  {
    n := |s| - |ReadChar(s).value.1|;
    if s[0] == '\\' && s[1] == 'u' {
      var k := Hex4(s[2..]);
      CodeUnitIs(s, k);
      PairIs(s, k);
    }
  }

  lemma CodeUnitLocal(b: string, t: string, k: nat)
    requires |b| >= 6
    ensures CodeUnit(b + t, k) <==> CodeUnit(b, k)
  {
    var s := b + t;
    assert s[2] == b[2] && s[3] == b[3] && s[4] == b[4] && s[5] == b[5];
  }

  /** A closing quote cannot complete a pair. */
  lemma PairLocal(b: string, t: string, c: char)
    requires |b| >= 6 && t != "" && t[0] == '\"'
    ensures Pair(b + t, c) <==> Pair(b, c)
  {
    var s := b + t;
    forall k: nat ensures CodeUnit(s, k) <==> CodeUnit(b, k) { CodeUnitLocal(b, t, k); }
    if |b| >= 12 {
      assert s[6..] == b[6..] + t;
      forall k: nat ensures CodeUnit(s[6..], k) <==> CodeUnit(b[6..], k) { CodeUnitLocal(b[6..], t, k); }
    } else if |s| >= 12 {
      forall k: nat ensures !CodeUnit(s[6..], k) { QuoteInUnit(s[6..], |b| - 6, k); }
    }
  }

  lemma QuoteInUnit(s: string, i: nat, k: nat)
    requires i < 6 && i < |s| && s[i] == '\"'
    ensures !CodeUnit(s, k)
  {
    forall d: nat ensures !HexIs('\"', d) { HexValueIs('\"', d); }
  }

  lemma UnitLocal(b: string, t: string, n: nat, c: char)
    requires n <= |b| && t != "" && t[0] == '\"'
    ensures Unit(b + t, n, c) <==> Unit(b, n, c)
  {
    var s := b + t;
    if n >= 1 { assert s[0] == b[0]; }
    if n >= 2 { assert s[1] == b[1]; }
    if n >= 6 {
      forall k: nat ensures CodeUnit(s, k) <==> CodeUnit(b, k) { CodeUnitLocal(b, t, k); }
      forall p ensures Pair(s, p) <==> Pair(b, p) { PairLocal(b, t, p); }
    }
  }

  lemma {:induction false} TailSound(s: string) returns (body: string)
    requires ReadTail(s).Some?
    ensures s == body + ("\"" + ReadTail(s).value.1) && Chars(body, ReadTail(s).value.0)
    decreases |s|
  {
    var (v, rest) := ReadTail(s).value;
    if s[0] == '\"' {
      body := "";
      assert s == "\"" + s[1..];
    } else {
      var n := ReadUnit(s);
      var more := TailSound(s[n..]);
      body := s[..n] + more;
      SplitAt(s, n);
      Twice(s[..n], more, "\"" + rest);
      UnitLocal(body, "\"" + rest, n, v[0]);
      Dropped(s[..n], more, n);
      TailOf(v[0], ReadTail(s[n..]).value.0);
      CharsCons(body, n, v, more);
    }
  }

  lemma CharsCons(body: string, n: nat, v: string, more: string)
    requires v != "" && 1 <= n <= |body| && Unit(body, n, v[0]) && body[n..] == more && Chars(more, v[1..])
    ensures Chars(body, v)
  {}

  lemma {:induction false} TailComplete(body: string, v: string, rest: string)
    requires Chars(body, v)
    ensures ReadTail(body + ("\"" + rest)) == Some((v, rest))
    decreases |body|
  {
    var t := "\"" + rest;
    if v == "" {
      assert body + t == t && t[1..] == rest;
    } else {
      var n: nat :| 1 <= n <= |body| && Unit(body, n, v[0]) && Chars(body[n..], v[1..]);
      TailComplete(body[n..], v[1..], rest);
      UnitInFront(body, t, n, v[0]);
      TailStep(body + t, v[0], body[n..] + t, v[1..], rest);
      assert v == [v[0]] + v[1..];
    }
  }

  lemma UnitInFront(body: string, t: string, n: nat, c: char)
    requires 1 <= n <= |body| && Unit(body, n, c) && t != "" && t[0] == '\"'
    ensures body + t != "" && (body + t)[0] != '\"' && ReadChar(body + t) == Some((c, body[n..] + t))
  {
    UnitLocal(body, t, n, c);
    UnitRead(body + t, n, c);
    Dropped(body, t, n);
  }

  lemma TailStep(s: string, c: char, next: string, cs: string, rest: string)
    requires s != "" && s[0] != '\"' && ReadChar(s) == Some((c, next)) && ReadTail(next) == Some((cs, rest))
    ensures ReadTail(s) == Some(([c] + cs, rest))
  {}

  lemma Dropped(a: string, b: string, n: nat)
    requires n <= |a|
    ensures (a + b)[n..] == a[n..] + b
    ensures n == |a| ==> (a + b)[n..] == b
  {}

  // ---------------------------------------------------------------- members of one name

  /** What the parser makes of a list of members, from the last one on. */
  function Collected(raw: seq<Member>): seq<Member>
    requires raw != []
  {
    if |raw| == 1 then [raw[0]] else Insert(Collected(raw[1..]), raw[0])
  }

  lemma {:induction false} LastOfCons(raw: seq<Member>, key: string)
    requires raw != []
    ensures LastOf(raw, key) ==
            if LastOf(raw[1..], key).Some? then LastOf(raw[1..], key)
            else if raw[0].key == key then Some(raw[0].value) else None
  {
    if |raw| > 1 {
      var k := |raw| - 1;
      LastOfCons(raw[..k], key);
      assert raw[1..][..k - 1] == raw[..k][1..];
    } else {
      assert raw[..0] == [] && LastOf(raw[..0], key).None?;
    }
  }

  lemma {:induction false} InsertHolds(ms: seq<Member>, m: Member, x: Member)
    requires SortedKeys(ms)
    ensures x in Insert(ms, m) <==> x in ms || (x == m && forall y | y in ms :: y.key != m.key)
  {
    if ms != [] {
      LessTotal(m.key, ms[0].key);
      assert ms == [ms[0]] + ms[1..];
      if Less(m.key, ms[0].key) {
        forall y | y in ms ensures y.key != m.key {
          var i :| 0 <= i < |ms| && ms[i] == y;
          if i > 0 {
            LessTransitive(m.key, ms[0].key, ms[i].key);
          }
          LessTotal(m.key, y.key);
        }
      } else if m.key != ms[0].key {
        InsertHolds(ms[1..], m, x);
      }
    }
  }

  lemma {:induction false} CollectedLastWins(raw: seq<Member>)
    requires raw != []
    ensures LastWins(raw, Collected(raw))
  {
    if |raw| == 1 {
      forall m: Member ensures m in Collected(raw) <==> LastOf(raw, m.key) == Some(m.value) {
        LastOfCons(raw, m.key);
        assert raw[1..] == [];
      }
    } else {
      var rest := Collected(raw[1..]);
      CollectedLastWins(raw[1..]);
      InsertKeepsSorted(rest, raw[0]);
      forall m: Member ensures m in Collected(raw) <==> LastOf(raw, m.key) == Some(m.value) {
        LastOfCons(raw, m.key);
        InsertHolds(rest, raw[0], m);
        NameTaken(raw[1..], rest, raw[0].key);
      }
    }
  }

  lemma NameTaken(raw: seq<Member>, members: seq<Member>, key: string)
    requires LastWins(raw, members)
    ensures LastOf(raw, key).Some? <==> exists y :: y in members && y.key == key
  {
    if LastOf(raw, key).Some? {
      assert Member(key, LastOf(raw, key).value) in members;
    }
  }

  /** There is one list in key order for the members that count. */
  lemma {:induction false} SortedSame(a: seq<Member>, b: seq<Member>)
    requires SortedKeys(a) && SortedKeys(b) && forall m :: m in a <==> m in b
    ensures a == b
  {
    assert a != [] ==> a[0] in b;
    assert b != [] ==> b[0] in a;
    if a != [] && b != [] {
      SameHead(a, b);
      forall m ensures m in a[1..] <==> m in b[1..] {
        NotInTail(a);
        NotInTail(b);
        assert a == [a[0]] + a[1..] && b == [b[0]] + b[1..];
        assert m in a <==> m in b;
      }
      SortedSame(a[1..], b[1..]);
      assert a == [a[0]] + a[1..] && b == [b[0]] + b[1..];
    }
  }

  lemma NotInTail(a: seq<Member>)
    requires SortedKeys(a) && a != []
    ensures a[0] !in a[1..]
  {
    if a[0] in a[1..] {
      var i :| 0 <= i < |a[1..]| && a[1..][i] == a[0];
      LessTotal(a[0].key, a[i + 1].key);
    }
  }

  lemma SameHead(a: seq<Member>, b: seq<Member>)
    requires SortedKeys(a) && SortedKeys(b) && a != [] && b != [] && a[0] in b && b[0] in a
    ensures a[0] == b[0]
  {
    var i :| 0 <= i < |b| && b[i] == a[0];
    var j :| 0 <= j < |a| && a[j] == b[0];
    if i > 0 && j > 0 {
      assert Less(b[0].key, b[i].key) && Less(a[0].key, a[j].key);
      LessTotal(a[0].key, b[0].key);
    }
  }

  // ---------------------------------------------------------------- pieces of a text

  lemma DenotesParts(num: NumberReader, w1: string, v: string, w2: string, t: Json)
    requires Blank(w1) && Blank(w2) && Value(num, v, t)
    ensures Denotes(num, w1 + (v + w2), t)
  {
    ThreeParts(w1, v, w2);
    DenotesAt(num, w1 + (v + w2), |w1|, |w1| + |v|, t);
  }

  lemma DenotesAt(num: NumberReader, s: string, a: nat, b: nat, t: Json)
    requires a <= b <= |s| && Blank(s[..a]) && Blank(s[b..]) && Value(num, s[a..b], t)
    ensures Denotes(num, s, t)
  {}

  lemma PartsOf(num: NumberReader, s: string, t: Json) returns (w1: string, v: string, w2: string)
    requires Denotes(num, s, t)
    ensures s == w1 + (v + w2) && Blank(w1) && Blank(w2) && Value(num, v, t)
  {
    var a: nat, b: nat :| a <= b <= |s| && Blank(s[..a]) && Blank(s[b..]) && Value(num, s[a..b], t);
    w1, v, w2 := s[..a], s[a..b], s[b..];
    SplitAt(s, a);
    SplitSlice(s, a, b);
  }

  lemma CutAt(a: string, sep: char, b: string)
    ensures var s := a + ([sep] + b);
            s[..|a|] == a && s[|a|] == sep && s[|a| + 1..] == b
  {}

  lemma TailOf<T>(x: T, xs: seq<T>)
    ensures ([x] + xs)[1..] == xs
  {}

  lemma ItemsCons(num: NumberReader, el: string, more: string, v: Json, vs: seq<Json>)
    requires Denotes(num, el, v) && Items(num, more, vs) && vs != []
    ensures Items(num, el + ("," + more), [v] + vs)
  {
    CutAt(el, ',', more);
    TailOf(v, vs);
  }

  lemma MembersCons(num: NumberReader, el: string, more: string, m: Member, ms: seq<Member>)
    requires MemberText(num, el, m) && Members(num, more, ms) && ms != []
    ensures Members(num, el + ("," + more), [m] + ms)
  {
    CutAt(el, ',', more);
    TailOf(m, ms);
  }

  lemma QuotedParts(body: string, v: string)
    requires Chars(body, v)
    ensures Quoted("\"" + (body + "\""), v)
  {
    var q := "\"" + (body + "\"");
    assert q[1..|q| - 1] == body;
  }

  lemma ThreeParts(x: string, y: string, z: string)
    ensures var s := x + (y + z);
            s[..|x|] == x && s[|x|..|x| + |y|] == y && s[|x| + |y|..] == z
  {}

  lemma MemberParts(num: NumberReader, s: string, w1: string, q: string, w2: string, val: string, m: Member)
    requires s == w1 + (q + (w2 + (":" + val)))
    requires Blank(w1) && Quoted(q, m.key) && Blank(w2) && Denotes(num, val, m.value)
    ensures MemberText(num, s, m)
  {
    MemberSlices(w1, q, w2, val);
    MemberFrom(num, s, |w1|, |w1| + |q|, |w1| + |q| + |w2|, w1, q, w2, val, m);
  }

  lemma MemberFrom(num: NumberReader, s: string, a: nat, b: nat, c: nat,
                   w1: string, q: string, w2: string, val: string, m: Member)
    requires Blank(w1) && Quoted(q, m.key) && Blank(w2) && Denotes(num, val, m.value)
    requires a <= b <= c < |s| && s[..a] == w1 && s[a..b] == q && s[b..c] == w2 && s[c] == ':' && s[c + 1..] == val
    ensures MemberText(num, s, m)
  {
    MemberAt(num, s, a, b, c, m);
  }

  lemma MemberSlices(w1: string, q: string, w2: string, val: string)
    ensures var s := w1 + (q + (w2 + (":" + val)));
            var a, b, c := |w1|, |w1| + |q|, |w1| + |q| + |w2|;
            c < |s| && s[..a] == w1 && s[a..b] == q && s[b..c] == w2 && s[c] == ':' && s[c + 1..] == val
  {
    var rest := w2 + (":" + val);
    ThreeParts(w1, q, rest);
    MiddleOf(w1 + (q + rest), |w1| + |q|, |w1| + |q| + |w2|, w2, val);
  }

  lemma MemberAt(num: NumberReader, s: string, a: nat, b: nat, c: nat, m: Member)
    requires a <= b <= c < |s| && Blank(s[..a]) && Quoted(s[a..b], m.key) && Blank(s[b..c])
    requires s[c] == ':' && Denotes(num, s[c + 1..], m.value)
    ensures MemberText(num, s, m)
  {}

  lemma MiddleOf(s: string, b: nat, c: nat, w: string, val: string)
    requires b <= c < |s| && s[b..] == w + (":" + val) && c == b + |w|
    ensures s[b..c] == w && s[c] == ':' && s[c + 1..] == val
  {
    CutAt(w, ':', val);
    assert s[b..][..|w|] == s[b..c] && s[b..][|w|] == s[c] && s[b..][|w| + 1..] == s[c + 1..];
  }

  // ---------------------------------------------------------------- what is read is denoted

  lemma {:induction false} HereSound(num: NumberReader, s: string) returns (v: string)
    requires ReadHere(num, s).Some?
    ensures s == v + ReadHere(num, s).value.1 && Value(num, v, ReadHere(num, s).value.0)
    decreases |s|, 0
  {
    var (t, rest) := ReadHere(num, s).value;
    if s[0] == '\"' {
      v := StringSound(num, s);
    } else if s[0] == '[' {
      v := ArraySound(num, s);
    } else if s[0] == '{' {
      v := ObjectSound(num, s);
    } else if s[0] == '-' || '0' <= s[0] <= '9' {
      v := NumberSound(num, s);
    } else {
      v := LiteralSound(num, s);
    }
  }

  lemma StringSound(num: NumberReader, s: string) returns (v: string)
    requires s != "" && s[0] == '\"' && ReadHere(num, s).Some?
    ensures s == v + ReadHere(num, s).value.1 && Value(num, v, ReadHere(num, s).value.0)
  {
    var (str, rest) := ReadTail(s[1..]).value;
    v := QuotedSound(s, str, rest);
    StringHere(num, s, str, rest);
    QuotedValue(num, v, str);
  }

  lemma QuotedSound(s: string, str: string, rest: string) returns (v: string)
    requires s != "" && s[0] == '\"' && ReadTail(s[1..]) == Some((str, rest))
    ensures s == v + rest && Quoted(v, str)
  {
    var body := TailSound(s[1..]);
    QuotedParts(body, str);
    v := "\"" + (body + "\"");
    SplitHead(s, 0);
    Moved("\"", body, "\"", rest);
  }

  lemma StringHere(num: NumberReader, s: string, str: string, rest: string)
    requires s != "" && s[0] == '\"' && ReadTail(s[1..]) == Some((str, rest))
    ensures ReadHere(num, s) == Some((Str(str), rest))
  {}

  lemma QuotedValue(num: NumberReader, v: string, str: string)
    requires Quoted(v, str)
    ensures Value(num, v, Str(str))
  {}

  lemma NumberSound(num: NumberReader, s: string) returns (v: string)
    requires s != "" && (s[0] == '-' || '0' <= s[0] <= '9') && ReadHere(num, s).Some?
    ensures s == v + ReadHere(num, s).value.1 && Value(num, v, ReadHere(num, s).value.0)
  {
    v := NumPrefix(s);
    AllNumChars(s);
  }

  lemma LiteralSound(num: NumberReader, s: string) returns (v: string)
    requires s != "" && s[0] != '\"' && s[0] != '[' && s[0] != '{' && s[0] != '-' && !('0' <= s[0] <= '9')
    requires ReadHere(num, s).Some?
    ensures s == v + ReadHere(num, s).value.1 && Value(num, v, ReadHere(num, s).value.0)
  {
    v := s[..|s| - |ReadHere(num, s).value.1|];
  }

  lemma {:induction false} AllNumChars(s: string)
    ensures forall i | 0 <= i < |NumPrefix(s)| :: NumChar(NumPrefix(s)[i])
  {
    if s != "" && NumChar(s[0]) {
      AllNumChars(s[1..]);
    }
  }

  lemma Bracketed(open: string, inner: string, close: string, rest: string)
    requires |open| == 1 && |close| == 1
    ensures var v := open + (inner + close);
            && v + rest == open + (inner + (close + rest)) && v[1..|v| - 1] == inner
            && v[0] == open[0] && v[|v| - 1] == close[0]
  {}

  lemma {:induction false} ArraySound(num: NumberReader, s: string) returns (v: string)
    requires s != "" && s[0] == '[' && ReadHere(num, s).Some?
    ensures s == v + ReadHere(num, s).value.1 && Value(num, v, ReadHere(num, s).value.0)
    decreases |s|, 0, 0
  {
    var (t, rest) := ReadHere(num, s).value;
    var k := Skipped(s[1..]);
    var inner;
    if s[1..][k..] != "" && s[1..][k..][0] == ']' {
      inner := s[1..][..k];
      assert s[1..] == inner + ("]" + rest);
    } else {
      inner := ItemsSound(num, s[1..]);
    }
    assert s == "[" + s[1..];
    Bracketed("[", inner, "]", rest);
    v := "[" + (inner + "]");
  }

  lemma {:induction false} ObjectSound(num: NumberReader, s: string) returns (v: string)
    requires s != "" && s[0] == '{' && ReadHere(num, s).Some?
    ensures s == v + ReadHere(num, s).value.1 && Value(num, v, ReadHere(num, s).value.0)
    decreases |s|, 0, 0
  {
    var (t, rest) := ReadHere(num, s).value;
    var k := Skipped(s[1..]);
    var inner, raw := "", [];
    if s[1..][k..] != "" && s[1..][k..][0] == '}' {
      inner := s[1..][..k];
      assert s[1..] == inner + ("}" + rest);
      assert Members(num, inner, raw) && LastWins(raw, []);
    } else {
      inner, raw := MembersSound(num, s[1..]);
      CollectedLastWins(raw);
    }
    SplitHead(s, 0);
    Moved("{", inner, "}", rest);
    v := "{" + (inner + "}");
    ObjectValue(num, inner, raw, t.members);
  }

  lemma ObjectValue(num: NumberReader, inner: string, raw: seq<Member>, members: seq<Member>)
    requires Members(num, inner, raw) && LastWins(raw, members)
    ensures Value(num, "{" + (inner + "}"), Obj(members))
  {
    Bracketed("{", inner, "}", "");
  }

  /** White space and a value, at the start of a text. */
  lemma {:induction false} ValueSound(num: NumberReader, s: string) returns (w: string, v: string)
    requires ReadValue(num, s).Some?
    ensures s == w + (v + ReadValue(num, s).value.1) && Blank(w) && Value(num, v, ReadValue(num, s).value.0)
    decreases |s|, 1
  {
    var k := Skipped(s);
    w := s[..k];
    v := HereSound(num, s[k..]);
    assert s == w + s[k..];
  }

  /** The same with the white space after the value. */
  lemma {:induction false} SpacedSound(num: NumberReader, s: string) returns (el: string)
    requires ReadValue(num, s).Some?
    ensures s == el + SkipWhite(ReadValue(num, s).value.1) && Denotes(num, el, ReadValue(num, s).value.0)
    decreases |s|, 2
  {
    var (t, rest) := ReadValue(num, s).value;
    var w, v := ValueSound(num, s);
    var k := Skipped(rest);
    DenotesParts(num, w, v, rest[..k], t);
    el := w + (v + rest[..k]);
    SplitAt(rest, k);
    Moved(w, v, rest[..k], rest[k..]);
  }

  lemma {:induction false} ItemsSound(num: NumberReader, s: string) returns (inner: string)
    requires ReadItems(num, s).Some?
    ensures s == inner + ("]" + ReadItems(num, s).value.1)
    ensures ReadItems(num, s).value.0 != [] && Items(num, inner, ReadItems(num, s).value.0)
    decreases |s|, 3
  {
    var (v, rest) := ReadValue(num, s).value;
    var el := SpacedSound(num, s);
    var t := SkipWhite(rest);
    assert t == [t[0]] + t[1..];
    if t[0] == ']' {
      inner := el;
    } else {
      var more := ItemsSound(num, t[1..]);
      ItemsCons(num, el, more, v, ReadItems(num, t[1..]).value.0);
      inner := el + ("," + more);
      Moved(el, ",", more, "]" + ReadItems(num, s).value.1);
    }
  }

  lemma Moved(a: string, b: string, c: string, d: string)
    ensures (a + (b + c)) + d == a + (b + (c + d))
  {}

  lemma {:induction false} MembersSound(num: NumberReader, s: string) returns (inner: string, raw: seq<Member>)
    requires ReadMembers(num, s).Some?
    ensures s == inner + ("}" + ReadMembers(num, s).value.1)
    ensures raw != [] && Members(num, inner, raw) && Collected(raw) == ReadMembers(num, s).value.0
    decreases |s|, 3
  {
    var el, m, t := MemberSound(num, s);
    SplitHead(t, 0);
    if t[0] == '}' {
      inner, raw := el, [m];
    } else {
      var more, ms := MembersSound(num, t[1..]);
      inner, raw := el + ("," + more), [m] + ms;
      MembersJoined(num, el, m, more, ms, ReadMembers(num, t[1..]).value.1);
    }
  }

  lemma MembersJoined(num: NumberReader, el: string, m: Member, more: string, ms: seq<Member>, rest: string)
    requires MemberText(num, el, m) && Members(num, more, ms) && ms != []
    ensures el + ("," + (more + ("}" + rest))) == (el + ("," + more)) + ("}" + rest)
    ensures Members(num, el + ("," + more), [m] + ms)
    ensures Collected([m] + ms) == Insert(Collected(ms), m)
  {
    MembersCons(num, el, more, m, ms);
    CollectedCons(m, ms);
    Moved(el, ",", more, "}" + rest);
  }

  lemma CollectedCons(m: Member, ms: seq<Member>)
    requires ms != []
    ensures Collected([m] + ms) == Insert(Collected(ms), m)
  {
    TailOf(m, ms);
  }

  /** A name, its colon, and the value with the white space around it: a member up to `t`. */
  lemma {:induction false} MemberSound(num: NumberReader, s: string) returns (el: string, m: Member, t: string)
    requires ReadMembers(num, s).Some?
    ensures s == el + t && |t| < |s| && MemberText(num, el, m) && t != ""
    ensures t[0] == '}' ==> ReadMembers(num, s) == Some(([m], t[1..]))
    ensures t[0] != '}' ==>
              && t[0] == ',' && ReadMembers(num, t[1..]).Some?
              && ReadMembers(num, s) ==
                 Some((Insert(ReadMembers(num, t[1..]).value.0, m), ReadMembers(num, t[1..]).value.1))
    decreases |s|, 2
  {
    var s2, s3;
    m, s2, s3, t := MemberHead(num, s);
    var w1, q, key, _ := NameSound(s);
    var b := Skipped(s2);
    var val := SpacedSound(num, s3[1..]);
    el := w1 + (q + (s2[..b] + (":" + val)));
    MemberParts(num, el, w1, q, s2[..b], val, m);
    SplitAt(s2, b);
    SplitHead(s3, 0);
    Assembled(s, w1, q, s2, s2[..b], s3, val, t);
  }

  /** The places the parser goes through for one member: past its name, at its colon, past its value. */
  lemma MemberHead(num: NumberReader, s: string) returns (m: Member, s2: string, s3: string, t: string)
    requires ReadMembers(num, s).Some?
    ensures var s1 := SkipWhite(s); s1 != "" && s1[0] == '\"' && ReadTail(s1[1..]) == Some((m.key, s2))
    ensures s3 == SkipWhite(s2) && s3 != "" && s3[0] == ':' && |s3[1..]| < |s|
    ensures ReadValue(num, s3[1..]).Some? && m.value == ReadValue(num, s3[1..]).value.0
    ensures t == SkipWhite(ReadValue(num, s3[1..]).value.1) && t != "" && |t| < |s|
    ensures t[0] == '}' ==> ReadMembers(num, s) == Some(([m], t[1..]))
    ensures t[0] != '}' ==>
              && t[0] == ',' && ReadMembers(num, t[1..]).Some?
              && ReadMembers(num, s) ==
                 Some((Insert(ReadMembers(num, t[1..]).value.0, m), ReadMembers(num, t[1..]).value.1))
  {
    var s1 := SkipWhite(s);
    s2 := ReadTail(s1[1..]).value.1;
    s3 := SkipWhite(s2);
    m := Member(ReadTail(s1[1..]).value.0, ReadValue(num, s3[1..]).value.0);
    t := SkipWhite(ReadValue(num, s3[1..]).value.1);
  }

  lemma Assembled(s: string, w1: string, q: string, s2: string, w2: string, s3: string, val: string, t: string)
    requires s == w1 + (q + s2) && s2 == w2 + s3 && s3 == ":" + (val + t)
    ensures s == (w1 + (q + (w2 + (":" + val)))) + t
  {
    Moved(w2, ":", val, t);
    Moved(w1, q, w2 + (":" + val), t);
  }

  lemma SplitAt(s: string, n: nat)
    requires n <= |s|
    ensures s == s[..n] + s[n..]
  {}

  lemma NameSound(s: string) returns (w1: string, q: string, key: string, s2: string)
    requires var s1 := SkipWhite(s); s1 != "" && s1[0] == '\"' && ReadTail(s1[1..]).Some?
    ensures (key, s2) == ReadTail(SkipWhite(s)[1..]).value
    ensures s == w1 + (q + s2) && Blank(w1) && Quoted(q, key)
  {
    var a := Skipped(s);
    var s1 := SkipWhite(s);
    key, s2 := ReadTail(s1[1..]).value.0, ReadTail(s1[1..]).value.1;
    q := QuotedSound(s1, key, s2);
    w1 := s[..a];
    SplitAt(s, a);
  }

  // ---------------------------------------------------------------- what is denoted is read

  /** What may follow a value inside a text. */
  predicate Follows(rest: string) {
    rest != "" ==> rest[0] == ',' || rest[0] == ']' || rest[0] == '}'
  }

  lemma ValueStarts(num: NumberReader, v: string, t: Json)
    requires Value(num, v, t)
    ensures v != "" && !White(v[0]) && v[0] != ']' && v[0] != '}'
  {}

  lemma {:induction false} HereComplete(num: NumberReader, v: string, t: Json, rest: string)
    requires Value(num, v, t) && Ends(t, rest)
    ensures ReadHere(num, v + rest) == Some((t, rest))
    decreases |v|, 0
  {
    match t
    case Null => LiteralComplete(num, v, t, rest);
    case Bool(_) => LiteralComplete(num, v, t, rest);
    case Num(_) => NumberComplete(num, v, t, rest);
    case Str(str) => StringComplete(num, v, str, rest);
    case Arr(items) => ArrayComplete(num, v, items, rest);
    case Obj(members) => ObjectComplete(num, v, members, rest);
  }

  lemma NumberComplete(num: NumberReader, v: string, t: Json, rest: string)
    requires Value(num, v, t) && t.Num? && Ends(t, rest)
    ensures ReadHere(num, v + rest) == Some((t, rest))
  {
    NumPrefixBack(v, rest);
    assert (v + rest)[|v|..] == rest;
  }

  lemma StringComplete(num: NumberReader, v: string, str: string, rest: string)
    requires Quoted(v, str)
    ensures ReadHere(num, v + rest) == Some((Str(str), rest))
  {
    var body := v[1..|v| - 1];
    TailComplete(body, str, rest);
    Wrapped(v);
    Moved("\"", body, "\"", rest);
    TailOf('\"', body + ("\"" + rest));
  }

  lemma Wrapped(v: string)
    requires |v| >= 2
    ensures v == [v[0]] + (v[1..|v| - 1] + [v[|v| - 1]])
  {}

  lemma LiteralComplete(num: NumberReader, v: string, t: Json, rest: string)
    requires Value(num, v, t) && (t.Null? || t.Bool?)
    ensures ReadHere(num, v + rest) == Some((t, rest))
  {
    assert (v + rest)[|v|..] == rest;
    assert v <= v + rest;
  }

  lemma {:induction false} ArrayComplete(num: NumberReader, v: string, items: seq<Json>, rest: string)
    requires Value(num, v, Arr(items))
    ensures ReadHere(num, v + rest) == Some((Arr(items), rest))
    decreases |v|, 0, 0
  {
    var inner := v[1..|v| - 1];
    Wrapped(v);
    Moved("[", inner, "]", rest);
    TailOf('[', inner + ("]" + rest));
    if items == [] {
      SkipBlank(inner, "]" + rest);
      assert ("]" + rest)[1..] == rest;
    } else {
      ItemsComplete(num, inner, items, rest);
      ItemsStart(num, inner, items, "]" + rest);
    }
  }

  lemma {:induction false} ObjectComplete(num: NumberReader, v: string, members: seq<Member>, rest: string)
    requires Value(num, v, Obj(members))
    ensures ReadHere(num, v + rest) == Some((Obj(members), rest))
    decreases |v|, 0, 0
  {
    var inner := v[1..|v| - 1];
    var raw :| Members(num, inner, raw) && LastWins(raw, members);
    Wrapped(v);
    Moved("{", inner, "}", rest);
    TailOf('{', inner + ("}" + rest));
    assert members != [] ==> members[0] in members;
    if raw == [] {
      SkipBlank(inner, "}" + rest);
      assert ("}" + rest)[1..] == rest;
    } else {
      MembersComplete(num, inner, raw, rest);
      MembersStart(num, inner, raw, "}" + rest);
      CollectedLastWins(raw);
      SortedSame(members, Collected(raw));
    }
  }

  /** The first character that is no white space is that of the first item. */
  lemma ItemsStart(num: NumberReader, inner: string, items: seq<Json>, tail: string)
    requires items != [] && Items(num, inner, items)
    ensures var t := SkipWhite(inner + tail); t != "" && t[0] != ']'
  {
    var i: nat := |inner|;
    if |items| > 1 {
      i :| i < |inner| && inner[i] == ',' && Denotes(num, inner[..i], items[0])
           && Items(num, inner[i + 1..], items[1..]);
    } else {
      assert inner[..i] == inner;
    }
    SplitAt(inner, i);
    DenotesStart(num, inner[..i], items[0], inner[i..] + tail);
    Twice(inner[..i], inner[i..], tail);
  }

  lemma Twice(a: string, b: string, c: string)
    ensures (a + b) + c == a + (b + c)
  {}

  lemma DenotesStart(num: NumberReader, el: string, t: Json, tail: string)
    requires Denotes(num, el, t)
    ensures var s := SkipWhite(el + tail); s != "" && s[0] != ']' && s[0] != '}'
  {
    var w1, v, w2 := PartsOf(num, el, t);
    ValueStarts(num, v, t);
    Twice(w1, v + w2, tail);
    Twice(v, w2, tail);
    SkipBlank(w1, v + (w2 + tail));
  }

  lemma MembersStart(num: NumberReader, inner: string, raw: seq<Member>, tail: string)
    requires raw != [] && Members(num, inner, raw)
    ensures var t := SkipWhite(inner + tail); t != "" && t[0] == '\"'
  {
    var i: nat := |inner|;
    if |raw| > 1 {
      i :| i < |inner| && inner[i] == ',' && MemberText(num, inner[..i], raw[0])
           && Members(num, inner[i + 1..], raw[1..]);
    } else {
      assert inner[..i] == inner;
    }
    SplitAt(inner, i);
    var w1, q, w2, val := MemberPieces(num, inner[..i], raw[0]);
    Twice(inner[..i], inner[i..], tail);
    Twice(w1, q + (w2 + (":" + val)), inner[i..] + tail);
    Twice(q, w2 + (":" + val), inner[i..] + tail);
    SkipBlank(w1, q + ((w2 + (":" + val)) + (inner[i..] + tail)));
  }

  lemma MemberPieces(num: NumberReader, s: string, m: Member)
    returns (w1: string, q: string, w2: string, val: string)
    requires MemberText(num, s, m)
    ensures s == w1 + (q + (w2 + (":" + val)))
    ensures Blank(w1) && Quoted(q, m.key) && Blank(w2) && Denotes(num, val, m.value) && |val| < |s|
  {
    var a: nat, b: nat, c: nat :|
      && a <= b <= c < |s| && Blank(s[..a]) && Quoted(s[a..b], m.key) && Blank(s[b..c])
      && s[c] == ':' && Denotes(num, s[c + 1..], m.value);
    w1, q, w2, val := s[..a], s[a..b], s[b..c], s[c + 1..];
    CutInFour(s, a, b, c);
  }

  lemma CutInFour(s: string, a: nat, b: nat, c: nat)
    requires a <= b <= c < |s| && s[c] == ':'
    ensures s == s[..a] + (s[a..b] + (s[b..c] + (":" + s[c + 1..])))
  {
    SplitAt(s, a);
    SplitSlice(s, a, b);
    SplitSlice(s, b, c);
    SplitHead(s, c);
    Nested(s, s[..a], s[a..], s[a..b], s[b..], s[b..c], s[c..], ":" + s[c + 1..]);
  }

  lemma SplitHead(s: string, c: nat)
    requires c < |s|
    ensures s[c..] == [s[c]] + s[c + 1..]
  {}

  lemma Nested(s: string, a: string, s1: string, b: string, s2: string, c: string, s3: string, d: string)
    requires s == a + s1 && s1 == b + s2 && s2 == c + s3 && s3 == d
    ensures s == a + (b + (c + d))
  {}

  lemma SplitSlice(s: string, a: nat, b: nat)
    requires a <= b <= |s|
    ensures s[a..] == s[a..b] + s[b..]
  {}

  /** A value in its white space is read, and the parser stands before what follows. */
  lemma {:induction false} DenotesComplete(num: NumberReader, s: string, t: Json, rest: string)
    requires Denotes(num, s, t) && Follows(rest)
    ensures ReadValue(num, s + rest).Some? && ReadValue(num, s + rest).value.0 == t
    ensures SkipWhite(ReadValue(num, s + rest).value.1) == rest
    decreases |s|, 1
  {
    var w1, v, w2 := PartsOf(num, s, t);
    ValueStarts(num, v, t);
    Twice(w1, v + w2, rest);
    Twice(v, w2, rest);
    SkipBlank(w1, v + (w2 + rest));
    HereComplete(num, v, t, w2 + rest);
    SkipBlank(w2, rest);
  }

  lemma {:induction false} ItemsComplete(num: NumberReader, inner: string, items: seq<Json>, rest: string)
    requires items != [] && Items(num, inner, items)
    ensures ReadItems(num, inner + ("]" + rest)) == Some((items, rest))
    decreases |inner|, 2
  {
    if |items| == 1 {
      DenotesComplete(num, inner, items[0], "]" + rest);
      assert ("]" + rest)[1..] == rest && items == [items[0]];
    } else {
      var i: nat :| i < |inner| && inner[i] == ',' && Denotes(num, inner[..i], items[0])
                    && Items(num, inner[i + 1..], items[1..]);
      var more := inner[i + 1..] + ("]" + rest);
      DenotesComplete(num, inner[..i], items[0], "," + more);
      ItemsComplete(num, inner[i + 1..], items[1..], rest);
      AtComma(inner, i, "]" + rest);
      assert ("," + more)[1..] == more && items == [items[0]] + items[1..];
    }
  }

  lemma AtComma(s: string, i: nat, tail: string)
    requires i < |s| && s[i] == ','
    ensures s + tail == s[..i] + ("," + (s[i + 1..] + tail))
  {
    assert s == s[..i] + ("," + s[i + 1..]);
    Moved(s[..i], ",", s[i + 1..], tail);
  }

  lemma {:induction false} MembersComplete(num: NumberReader, inner: string, raw: seq<Member>, rest: string)
    requires raw != [] && Members(num, inner, raw)
    ensures ReadMembers(num, inner + ("}" + rest)) == Some((Collected(raw), rest))
    decreases |inner|, 3
  {
    if |raw| == 1 {
      MemberComplete(num, inner, raw[0], "}" + rest);
      assert ("}" + rest)[1..] == rest;
    } else {
      var i: nat :| i < |inner| && inner[i] == ',' && MemberText(num, inner[..i], raw[0])
                    && Members(num, inner[i + 1..], raw[1..]);
      var more := inner[i + 1..] + ("}" + rest);
      MemberComplete(num, inner[..i], raw[0], "," + more);
      MembersComplete(num, inner[i + 1..], raw[1..], rest);
      AtComma(inner, i, "}" + rest);
      assert ("," + more)[1..] == more;
    }
  }

  /** One member is read, and the parser stands before what follows. */
  lemma {:induction false} MemberComplete(num: NumberReader, s: string, m: Member, tail: string)
    requires MemberText(num, s, m) && Follows(tail) && tail != ""
    ensures tail[0] == '}' ==> ReadMembers(num, s + tail) == Some(([m], tail[1..]))
    ensures tail[0] == ',' && ReadMembers(num, tail[1..]).Some? ==>
              ReadMembers(num, s + tail) ==
              Some((Insert(ReadMembers(num, tail[1..]).value.0, m), ReadMembers(num, tail[1..]).value.1))
    decreases |s|, 2
  {
    var w1, q, w2, val := MemberPieces(num, s, m);
    DenotesComplete(num, val, m.value, tail);
    NameComplete(w1, q, m.key, w2 + (":" + (val + tail)));
    SkipBlank(w2, ":" + (val + tail));
    assert (":" + (val + tail))[1..] == val + tail;
    MovedFar(w1, q, w2, val, tail);
    MemberRead(num, s + tail, m, w2 + (":" + (val + tail)), val + tail, tail);
  }

  lemma MovedFar(a: string, q: string, b: string, val: string, t: string)
    ensures (a + (q + (b + (":" + val)))) + t == a + (q + (b + (":" + (val + t))))
  {
    Moved(b, ":", val, t);
    Moved(a, q, b + (":" + val), t);
  }

  lemma NameComplete(w1: string, q: string, key: string, s2: string)
    requires Blank(w1) && Quoted(q, key)
    ensures var s1 := SkipWhite(w1 + (q + s2));
            s1 != "" && s1[0] == '\"' && ReadTail(s1[1..]) == Some((key, s2))
  {
    var body := q[1..|q| - 1];
    assert q == "\"" + (body + "\"");
    Bracketed("\"", body, "\"", s2);
    SkipBlank(w1, q + s2);
    TailComplete(body, key, s2);
    assert (q + s2)[1..] == body + ("\"" + s2);
  }

  lemma MemberRead(num: NumberReader, s: string, m: Member, s2: string, s4: string, t: string)
    requires var s1 := SkipWhite(s); s1 != "" && s1[0] == '\"' && ReadTail(s1[1..]) == Some((m.key, s2))
    requires SkipWhite(s2) == ":" + s4 && ReadValue(num, s4).Some? && ReadValue(num, s4).value.0 == m.value
    requires SkipWhite(ReadValue(num, s4).value.1) == t && t != ""
    ensures t[0] == '}' ==> ReadMembers(num, s) == Some(([m], t[1..]))
    ensures t[0] == ',' && ReadMembers(num, t[1..]).Some? ==>
              ReadMembers(num, s) ==
              Some((Insert(ReadMembers(num, t[1..]).value.0, m), ReadMembers(num, t[1..]).value.1))
  {
    assert (":" + s4)[1..] == s4;
  }

  // ---------------------------------------------------------------- how Go prints

  /** What may be printed for anything but a space in a string: no white space, no control character, and none
      of the characters that mean something to HTML or end a line of JavaScript. */
  predicate Shown(c: char) {
    && c as int > 0x20 && c != '<' && c != '>' && c != '&' && c as int != 0x2028 && c as int != 0x2029
  }

  ghost predicate HasSpace(t: Json) {
    match t
    case Str(s) => ' ' in s
    case Arr(items) => exists i | 0 <= i < |items| :: HasSpace(items[i])
    case Obj(members) => exists i | 0 <= i < |members| :: ' ' in members[i].key || HasSpace(members[i].value)
    case _ => false
  }

  /** A character is printed as it is unless it must not be shown or is a quote or a backslash; five control
      characters have short escapes, the others a \u escape with lower-case digits. */
  lemma EscapeSays(c: char)
    ensures (Shown(c) || c == ' ') && c != '\"' && c != '\\' ==> Escape(c) == [c]
    ensures c == '\"' || c == '\\' ==> Escape(c) == ['\\', c]
    ensures c as int in {8, 9, 10, 12, 13} ==>
              Escape(c) == ['\\', if c as int == 8 then 'b' else if c as int == 9 then 't'
                                  else if c as int == 10 then 'n' else if c as int == 12 then 'f' else 'r']
    ensures !Shown(c) && c != ' ' && c as int !in {8, 9, 10, 12, 13} ==>
              CodeUnit(Escape(c), c as int) && |Escape(c)| == 6 && forall i | 2 <= i < 6 :: LowerHex(Escape(c)[i])
    ensures forall x | x in Escape(c) :: Shown(x) || (x == ' ' && c == ' ')
  {
    if UEscaped(c) {
      UEscapeUnit(c);
      UEscapeShown(c);
    }
  }

  lemma UEscapeShown(c: char)
    ensures forall i | 2 <= i < 6 :: LowerHex(UEscape(c)[i])
    ensures forall x | x in UEscape(c) :: Shown(x)
  {
    var e := UEscape(c);
    forall i | 0 <= i < 6 ensures Shown(e[i]) && (i >= 2 ==> LowerHex(e[i])) {
      assert i >= 2 ==> exists d | 0 <= d < 16 :: e[i] == HexDigit(d);
    }
  }

  predicate LowerHex(c: char) { '0' <= c <= '9' || 'a' <= c <= 'f' }

  lemma UEscapeUnit(c: char)
    requires UEscaped(c)
    ensures CodeUnit(UEscape(c), c as int)
  {
    var e := UEscape(c);
    Hex4Back(c as int, e[2..]);
    CodeUnitIs(e, c as int);
  }

  lemma {:induction false} TailShown(s: string)
    ensures forall c | c in PrintTail(s) :: Shown(c) || (c == ' ' && ' ' in s)
  {
    if s != "" {
      EscapeSays(s[0]);
      TailShown(s[1..]);
    }
  }

  /** The printed text is compact and safe to show: a space stands only in a string that has one. */
  lemma {:induction false} PrintShown(num: NumberReader, t: Json)
    requires Canonical(num, t)
    ensures forall c | c in Print(t) :: Shown(c) || (c == ' ' && HasSpace(t))
    decreases t, 0
  {
    match t
    case Str(s) => TailShown(s);
    case Arr(items) =>
      if items != [] {
        ItemsShown(num, items);
      }
    case Obj(members) =>
      if members != [] {
        MembersShown(num, members);
      }
    case _ =>
  }

  lemma {:induction false} ItemsShown(num: NumberReader, items: seq<Json>)
    requires items != [] && forall i | 0 <= i < |items| :: Canonical(num, items[i])
    ensures forall c | c in PrintItems(items) ::
              Shown(c) || (c == ' ' && exists i | 0 <= i < |items| :: HasSpace(items[i]))
    decreases items, 1
  {
    PrintShown(num, items[0]);
    if |items| > 1 {
      ItemsShown(num, items[1..]);
    }
  }

  lemma {:induction false} MembersShown(num: NumberReader, members: seq<Member>)
    requires members != [] && forall i | 0 <= i < |members| :: Canonical(num, members[i].value)
    ensures forall c | c in PrintMembers(members) ::
              Shown(c) || (c == ' ' && exists i | 0 <= i < |members| ::
                             ' ' in members[i].key || HasSpace(members[i].value))
    decreases members, 1
  {
    TailShown(members[0].key);
    PrintShown(num, members[0].value);
    if |members| > 1 {
      MembersShown(num, members[1..]);
    }
  }

  // ---------------------------------------------------------------- the theorem

  /** What is printed for a canonical tree denotes it. */
  lemma PrintDenotes(num: NumberReader, t: Json)
    requires Lawful(num) && Canonical(num, t)
    ensures Denotes(num, Print(t), t)
  {
    UnmarshalUndoesPrint(num, t);
    UnmarshalIffDenotes(num, Print(t), t);
  }

  /** The members of an object are printed in key order, each once: they are what the text lists. */
  lemma PrintedInOrder(num: NumberReader, members: seq<Member>)
    requires Lawful(num) && Canonical(num, Obj(members))
    ensures var s := Print(Obj(members));
            |s| >= 2 && s[0] == '{' && s[|s| - 1] == '}' && Members(num, s[1..|s| - 1], members)
  {
    if members != [] {
      var inner := MembersPrinted(num, members);
      Bracketed("{", inner, "}", "");
    }
  }

  lemma {:induction false} MembersPrinted(num: NumberReader, members: seq<Member>) returns (inner: string)
    requires Lawful(num) && members != [] && forall i | 0 <= i < |members| :: Canonical(num, members[i].value)
    ensures PrintMembers(members) == inner + "}" && Members(num, inner, members)
  {
    var m, rest := members[0], members[1..];
    if rest == [] {
      inner := MemberPrinted(num, m, "}");
    } else {
      var more := MembersPrinted(num, rest);
      var el := MemberPrinted(num, m, "," + (more + "}"));
      inner := el + ("," + more);
      MembersCons(num, el, more, m, rest);
      Moved(el, ",", more, "}");
      assert members == [m] + rest;
    }
  }

  lemma MemberPrinted(num: NumberReader, m: Member, end: string) returns (el: string)
    requires Lawful(num) && Canonical(num, m.value)
    ensures MemberText(num, el, m)
    ensures "\"" + (PrintTail(m.key) + (":" + (Print(m.value) + end))) == el + end
  {
    var q, val := "\"" + PrintTail(m.key), Print(m.value);
    NamePrinted(m.key);
    PrintDenotes(num, m.value);
    el := q + (":" + val);
    Unspaced(q, ":" + val);
    MemberParts(num, el, "", q, "", val, m);
    PrintedLast(PrintTail(m.key), val, end);
  }

  lemma Unspaced(q: string, v: string)
    ensures q + v == "" + (q + ("" + v))
  {}

  lemma PrintedLast(tail: string, val: string, end: string)
    ensures "\"" + (tail + (":" + (val + end))) == (("\"" + tail) + (":" + val)) + end
  {
    var q := "\"" + tail;
    Moved(q, ":", val, end);
    Twice("\"", tail, ":" + (val + end));
  }

  lemma NamePrinted(key: string)
    ensures Quoted("\"" + PrintTail(key), key)
  {
    var q := "\"" + PrintTail(key);
    assert PrintTail(key) + "" == PrintTail(key);
    StringBack(key, "");
    TailOf('\"', PrintTail(key));
    var v := QuotedSound(q, key, "");
    assert v + "" == v;
  }

  /** The parser accepts exactly the texts that denote a tree, and yields that tree. */
  lemma UnmarshalIffDenotes(num: NumberReader, s: string, t: Json)
    ensures Unmarshal(num, s) == Some(t) <==> Denotes(num, s, t)
  {
    if Unmarshal(num, s) == Some(t) {
      var el := SpacedSound(num, s);
      assert el + "" == el;
    }
    if Denotes(num, s, t) {
      DenotesComplete(num, s, t, "");
      assert s + "" == s;
    }
  }
}
