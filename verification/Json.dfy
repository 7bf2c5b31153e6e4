/** JSON text (RFC 8259) as Go's encoding/json writes and reads it: strings are sequences of Unicode
    scalar values, objects are kept in key order, and number tokens are opaque, rewritten by a function
    `num` that stands for the round trip through float64. */
module Json {
  import opened Prelude

  datatype Json =
    | Null
    | Bool(b: bool)
    | Num(token: string)
    | Str(s: string)
    | Arr(items: seq<Json>)
    | Obj(members: seq<Member>)

  datatype Member = Member(key: string, value: Json)

  /** Reading a number token: None when it is not a JSON number or out of range, otherwise its printed form. */
  type NumberReader = string -> Option<string>

  predicate NumChar(c: char) {
    '0' <= c <= '9' || c == '-' || c == '+' || c == '.' || c == 'e' || c == 'E'
  }

  predicate Token(t: string) {
    t != "" && ('0' <= t[0] <= '9' || t[0] == '-') && forall i | 0 <= i < |t| :: NumChar(t[i])
  }

  /** What is printed for a number is a number token that reads back as itself. */
  ghost predicate Lawful(num: NumberReader) {
    forall t | num(t).Some? :: Token(num(t).value) && num(num(t).value) == num(t)
  }

  // ---------------------------------------------------------------- canonical trees

  /** The order of keys: by code point, which is the byte order of their UTF-8 forms. */
  predicate Less(a: string, b: string) {
    b != "" && (a == "" || a[0] < b[0] || (a[0] == b[0] && Less(a[1..], b[1..])))
  }

  ghost predicate SortedKeys(ms: seq<Member>) {
    forall i, j | 0 <= i < j < |ms| :: Less(ms[i].key, ms[j].key)
  }

  /** What the parser produces: keys sorted and distinct, numbers in their printed form. */
  ghost predicate Canonical(num: NumberReader, t: Json) {
    match t
    case Num(token) => Token(token) && num(token) == Some(token)
    case Arr(items) => forall i | 0 <= i < |items| :: Canonical(num, items[i])
    case Obj(members) => SortedKeys(members) && forall i | 0 <= i < |members| :: Canonical(num, members[i].value)
    case _ => true
  }

  lemma {:induction false} LessTransitive(a: string, b: string, c: string)
    requires Less(a, b) && Less(b, c)
    ensures Less(a, c)
  {
    if a != "" && a[0] == b[0] && b[0] == c[0] {
      LessTransitive(a[1..], b[1..], c[1..]);
    }
  }

  lemma {:induction false} LessTotal(a: string, b: string)
    ensures a == b || Less(a, b) || Less(b, a)
    ensures !(Less(a, b) && Less(b, a)) && !Less(a, a)
  {
    if a != "" && b != "" && a[0] == b[0] {
      LessTotal(a[1..], b[1..]);
      assert a == [a[0]] + a[1..] && b == [b[0]] + b[1..];
    }
    if a != "" {
      LessTotal(a[1..], a[1..]);
    }
  }

  /** A member read before the members `ms`: a later member of the same key wins. */
  function Insert(ms: seq<Member>, m: Member): seq<Member> {
    if ms == [] then [m]
    else if m.key == ms[0].key then ms
    else if Less(m.key, ms[0].key) then [m] + ms
    else [ms[0]] + Insert(ms[1..], m)
  }

  lemma {:induction false} InsertKeepsSorted(ms: seq<Member>, m: Member)
    requires SortedKeys(ms)
    ensures SortedKeys(Insert(ms, m))
    ensures forall x | x in Insert(ms, m) :: x == m || x in ms
  {
    if ms == [] || m.key == ms[0].key {
    } else if Less(m.key, ms[0].key) {
      forall j | 0 < j < |ms| ensures Less(m.key, ms[j].key) {
        LessTransitive(m.key, ms[0].key, ms[j].key);
      }
    } else {
      LessTotal(m.key, ms[0].key);
      InsertKeepsSorted(ms[1..], m);
      var r := Insert(ms[1..], m);
      forall j | 0 <= j < |r| ensures Less(ms[0].key, r[j].key) {
        assert r[j] in r;
        if r[j] != m {
          var k :| 0 <= k < |ms[1..]| && ms[1..][k] == r[j];
          assert ms[k + 1] == r[j];
        }
      }
    }
  }

  /** Members in key order are left in place. */
  lemma InsertFirst(ms: seq<Member>, m: Member)
    requires SortedKeys([m] + ms)
    ensures Insert(ms, m) == [m] + ms
  {
    if ms != [] {
      var all := [m] + ms;
      assert Less(all[0].key, all[1].key);
      LessTotal(m.key, ms[0].key);
    }
  }

  // ---------------------------------------------------------------- strings

  function HexDigit(d: int): char
    requires 0 <= d < 16
  {
    if d < 10 then '0' + (d as char) else 'a' + ((d - 10) as char)
  }

  function HexValue(c: char): (d: int)
    ensures -1 <= d < 16
  {
    if '0' <= c <= '9' then c as int - '0' as int
    else if 'a' <= c <= 'f' then c as int - 'a' as int + 10
    else if 'A' <= c <= 'F' then c as int - 'A' as int + 10
    else -1
  }

  const BACKSPACE: char := '\U{8}'
  const FORMFEED: char := '\U{c}'
  const LINE_SEP: char := '\U{2028}'
  const PARA_SEP: char := '\U{2029}'
  const REPLACEMENT: char := '\U{fffd}'

  /** The characters that Go writes as a \u escape although JSON would allow most of them. */
  predicate UEscaped(c: char) {
    c < ' ' || c == '<' || c == '>' || c == '&' || c == LINE_SEP || c == PARA_SEP
  }

  function UEscape(c: char): (r: string)
    ensures |r| == 6
  {
    var n := c as int;
    "\\u" + [HexDigit(n / 4096 % 16), HexDigit(n / 256 % 16), HexDigit(n / 16 % 16), HexDigit(n % 16)]
  }

  function Escape(c: char): (r: string)
    ensures r != ""
  {
    if c == '\"' then "\\\""
    else if c == '\\' then "\\\\"
    else if c == BACKSPACE then "\\b"
    else if c == FORMFEED then "\\f"
    else if c == '\n' then "\\n"
    else if c == '\r' then "\\r"
    else if c == '\t' then "\\t"
    else if UEscaped(c) then UEscape(c)
    else [c]
  }

  /** A string after its opening quote. */
  function PrintTail(s: string): string {
    if s == "" then "\"" else Escape(s[0]) + PrintTail(s[1..])
  }

  /** Four hexadecimal digits; -1 when they are not. */
  function Hex4(s: string): (n: int)
    requires |s| >= 4
    ensures -1 <= n < 0x10000
  {
    var a, b, c, d := HexValue(s[0]), HexValue(s[1]), HexValue(s[2]), HexValue(s[3]);
    if a < 0 || b < 0 || c < 0 || d < 0 then -1 else a * 4096 + b * 256 + c * 16 + d
  }

  predicate Surrogate(n: int) { 0xD800 <= n < 0xE000 }

  /** One character of a string after its opening quote, and what follows it; None is a syntax error. */
  function ReadChar(s: string): (r: Option<(char, string)>)
    requires s != "" && s[0] != '\"'
    ensures r.Some? ==> |r.value.1| < |s|
  {
    if s[0] < ' ' then None
    else if s[0] != '\\' then Some((s[0], s[1..]))
    else if |s| < 2 then None
    else match s[1]
      case '\"' => Some(('\"', s[2..]))
      case '\\' => Some(('\\', s[2..]))
      case '/' => Some(('/', s[2..]))
      case 'b' => Some((BACKSPACE, s[2..]))
      case 'f' => Some((FORMFEED, s[2..]))
      case 'n' => Some(('\n', s[2..]))
      case 'r' => Some(('\r', s[2..]))
      case 't' => Some(('\t', s[2..]))
      case 'u' => ReadUnicode(s)
      case _ => None
  }

  /** A \u escape; two of them for a pair of surrogates, the replacement character for a lone one. */
  function ReadUnicode(s: string): (r: Option<(char, string)>)
    requires |s| >= 2
    ensures r.Some? ==> |r.value.1| < |s|
  {
    if |s| < 6 then None
    else
      var n := Hex4(s[2..]);
      if n < 0 then None
      else if !Surrogate(n) then Some((n as char, s[6..]))
      else if |s| >= 12 && s[6] == '\\' && s[7] == 'u' && n < 0xDC00 && 0xDC00 <= Hex4(s[8..]) < 0xE000 then
        Some((((n - 0xD800) * 0x400 + (Hex4(s[8..]) - 0xDC00) + 0x10000) as char, s[12..]))
      else Some((REPLACEMENT, s[6..]))
  }

  /** A string after its opening quote. */
  function ReadTail(s: string): (r: Option<(string, string)>)
    ensures r.Some? ==> |r.value.1| < |s|
    decreases |s|
  {
    if s == "" then None
    else if s[0] == '\"' then Some(("", s[1..]))
    else match ReadChar(s)
      case None => None
      case Some((c, rest)) =>
        match ReadTail(rest) {
          case None => None
          case Some((cs, rest')) => Some(([c] + cs, rest'))
        }
  }

  lemma HexBack(d: int)
    requires 0 <= d < 16
    ensures HexValue(HexDigit(d)) == d
  {}

  lemma UEscapeBack(c: char, rest: string)
    requires UEscaped(c)
    ensures ReadUnicode(UEscape(c) + rest) == Some((c, rest))
  {
    var n := c as int;
    var e := UEscape(c) + rest;
    assert n < 0x10000 && !Surrogate(n);
    Hex4Back(n, e[2..]);
    assert e[6..] == rest;
  }

  lemma Hex4Back(n: nat, s: string)
    requires n < 0x10000 && |s| >= 4
    requires s[0] == HexDigit(n / 4096 % 16) && s[1] == HexDigit(n / 256 % 16)
    requires s[2] == HexDigit(n / 16 % 16) && s[3] == HexDigit(n % 16)
    ensures Hex4(s) == n
  {
    HexBack(n / 4096 % 16);
    HexBack(n / 256 % 16);
    HexBack(n / 16 % 16);
    HexBack(n % 16);
    HexSum(n);
  }

  lemma HexSum(n: nat)
    requires n < 0x10000
    ensures n / 4096 % 16 * 4096 + n / 256 % 16 * 256 + n / 16 % 16 * 16 + n % 16 == n
  {
    assert n / 256 == n / 16 / 16 && n / 4096 == n / 256 / 16 && n / 4096 < 16;
  }

  /** Every character is read back from its escaped form. */
  lemma EscapeBack(c: char, rest: string)
    ensures Escape(c)[0] != '\"'
    ensures ReadChar(Escape(c) + rest) == Some((c, rest))
  {
    var e := Escape(c);
    assert (e + rest)[|e|..] == rest;
    if UEscaped(c) && e == UEscape(c) {
      UEscapeBack(c, rest);
    }
  }

  /** Every string is read back from its printed form, whatever follows. */
  lemma {:induction false} StringBack(s: string, rest: string)
    ensures ReadTail(PrintTail(s) + rest) == Some((s, rest))
  {
    if s == "" {
      assert (PrintTail(s) + rest)[1..] == rest;
    } else {
      var more := PrintTail(s[1..]) + rest;
      assert PrintTail(s) + rest == Escape(s[0]) + more;
      EscapeBack(s[0], more);
      assert (Escape(s[0]) + more)[0] == Escape(s[0])[0];
      StringBack(s[1..], rest);
      assert s == [s[0]] + s[1..];
    }
  }

  // ---------------------------------------------------------------- values

  function Print(t: Json): (r: string)
    decreases t, 0
  {
    match t
    case Null => "null"
    case Bool(b) => if b then "true" else "false"
    case Num(token) => token
    case Str(s) => "\"" + PrintTail(s)
    case Arr(items) => if items == [] then "[]" else "[" + PrintItems(items)
    case Obj(members) => if members == [] then "{}" else "{" + PrintMembers(members)
  }

  /** The items of an array after its opening bracket. */
  function PrintItems(items: seq<Json>): string
    requires items != []
    decreases items, 1
  {
    Print(items[0]) + (if |items| == 1 then "]" else "," + PrintItems(items[1..]))
  }

  function PrintMembers(members: seq<Member>): string
    requires members != []
    decreases members, 1
  {
    "\"" + (PrintTail(members[0].key) + (":" + (Print(members[0].value)
      + (if |members| == 1 then "}" else "," + PrintMembers(members[1..])))))
  }

  predicate White(c: char) { c == ' ' || c == '\t' || c == '\n' || c == '\r' }

  function SkipWhite(s: string): (r: string)
    ensures |r| <= |s|
    ensures r != "" ==> !White(r[0])
  {
    if s != "" && White(s[0]) then SkipWhite(s[1..]) else s
  }

  /** The longest prefix of number characters. */
  function NumPrefix(s: string): (t: string)
    ensures |t| <= |s| && t == s[..|t|]
    ensures s != "" && NumChar(s[0]) ==> t != ""
  {
    if s != "" && NumChar(s[0]) then [s[0]] + NumPrefix(s[1..]) else ""
  }

  /** One value, after white space; None is a syntax error. */
  function ReadValue(num: NumberReader, s: string): (r: Option<(Json, string)>)
    ensures r.Some? ==> |r.value.1| < |s|
    decreases |s|, 1
  {
    ReadHere(num, SkipWhite(s))
  }

  function ReadHere(num: NumberReader, s: string): (r: Option<(Json, string)>)
    ensures r.Some? ==> |r.value.1| < |s|
    decreases |s|, 0
  {
    if s == "" then None
    else if s[0] == '\"' then
      (match ReadTail(s[1..])
       case None => None
       case Some((str, rest)) => Some((Str(str), rest)))
    else if s[0] == '[' then
      var t := SkipWhite(s[1..]);
      if t != "" && t[0] == ']' then Some((Arr([]), t[1..]))
      else
        (match ReadItems(num, s[1..])
         case None => None
         case Some((items, rest)) => Some((Arr(items), rest)))
    else if s[0] == '{' then
      var t := SkipWhite(s[1..]);
      if t != "" && t[0] == '}' then Some((Obj([]), t[1..]))
      else
        (match ReadMembers(num, s[1..])
         case None => None
         case Some((members, rest)) => Some((Obj(members), rest)))
    else if s[0] == '-' || '0' <= s[0] <= '9' then
      var token := NumPrefix(s);
      match num(token)
      case None => None
      case Some(printed) => Some((Num(printed), s[|token|..]))
    else if "null" <= s then Some((Null, s[4..]))
    else if "true" <= s then Some((Bool(true), s[4..]))
    else if "false" <= s then Some((Bool(false), s[5..]))
    else None
  }

  /** The items of an array, at least one, up to the closing bracket. */
  function ReadItems(num: NumberReader, s: string): (r: Option<(seq<Json>, string)>)
    ensures r.Some? ==> |r.value.1| < |s|
    decreases |s|, 2
  {
    match ReadValue(num, s)
    case None => None
    case Some((v, rest)) =>
      var t := SkipWhite(rest);
      if t != "" && t[0] == ']' then Some(([v], t[1..]))
      else if t != "" && t[0] == ',' then
        (match ReadItems(num, t[1..])
         case None => None
         case Some((vs, rest')) => Some(([v] + vs, rest')))
      else None
  }

  function ReadMembers(num: NumberReader, s: string): (r: Option<(seq<Member>, string)>)
    ensures r.Some? ==> |r.value.1| < |s|
    decreases |s|, 2
  {
    var s1 := SkipWhite(s);
    if s1 == "" || s1[0] != '\"' then None
    else match ReadTail(s1[1..])
      case None => None
      case Some((key, s2)) =>
        var s3 := SkipWhite(s2);
        if s3 == "" || s3[0] != ':' then None
        else match ReadValue(num, s3[1..])
          case None => None
          case Some((v, rest)) =>
            var t := SkipWhite(rest);
            if t != "" && t[0] == '}' then Some(([Member(key, v)], t[1..]))
            else if t != "" && t[0] == ',' then
              (match ReadMembers(num, t[1..])
               case None => None
               case Some((ms, rest')) => Some((Insert(ms, Member(key, v)), rest')))
            else None
  }

  /** `json.Unmarshal` into an empty interface. */
  function Unmarshal(num: NumberReader, s: string): Option<Json> {
    match ReadValue(num, s)
    case None => None
    case Some((t, rest)) => if SkipWhite(rest) == "" then Some(t) else None
  }

  // ---------------------------------------------------------------- reading yields canonical trees

  lemma {:induction false} ReadCanonical(num: NumberReader, s: string)
    requires Lawful(num)
    ensures ReadHere(num, s).Some? ==> Canonical(num, ReadHere(num, s).value.0)
    decreases |s|, 0
  {
    if s != "" && s[0] == '[' {
      ItemsCanonical(num, s[1..]);
    } else if s != "" && s[0] == '{' {
      MembersCanonical(num, s[1..]);
    }
  }

  lemma {:induction false} ItemsCanonical(num: NumberReader, s: string)
    requires Lawful(num)
    ensures ReadItems(num, s).Some? ==> forall x | x in ReadItems(num, s).value.0 :: Canonical(num, x)
    decreases |s|, 2
  {
    ReadCanonical(num, SkipWhite(s));
    var v := ReadValue(num, s);
    if v.Some? {
      var t := SkipWhite(v.value.1);
      if t != "" {
        ItemsCanonical(num, t[1..]);
      }
    }
  }

  lemma {:induction false} MembersCanonical(num: NumberReader, s: string)
    requires Lawful(num)
    ensures ReadMembers(num, s).Some? ==>
              && SortedKeys(ReadMembers(num, s).value.0)
              && forall x | x in ReadMembers(num, s).value.0 :: Canonical(num, x.value)
    decreases |s|, 2
  {
    if ReadMembers(num, s).Some? {
      var (key, s2) := ReadTail(SkipWhite(s)[1..]).value;
      var s3 := SkipWhite(s2);
      ReadCanonical(num, SkipWhite(s3[1..]));
      var (v, rest) := ReadValue(num, s3[1..]).value;
      var t := SkipWhite(rest);
      if t[0] != '}' {
        MembersCanonical(num, t[1..]);
        InsertKeepsSorted(ReadMembers(num, t[1..]).value.0, Member(key, v));
      }
    }
  }

  // ---------------------------------------------------------------- printing is undone by reading

  /** A number token would swallow the number characters that follow it. */
  predicate Ends(t: Json, rest: string) {
    t.Num? && rest != "" ==> !NumChar(rest[0])
  }

  lemma {:induction false} NumPrefixBack(token: string, rest: string)
    requires forall i | 0 <= i < |token| :: NumChar(token[i])
    requires rest != "" ==> !NumChar(rest[0])
    ensures NumPrefix(token + rest) == token
  {
    if token == "" {
      assert token + rest == rest;
    } else {
      assert (token + rest)[1..] == token[1..] + rest;
      NumPrefixBack(token[1..], rest);
      assert token == [token[0]] + token[1..];
    }
  }

  /** A printed value does not start with white space or a closing bracket. */
  lemma PrintStarts(num: NumberReader, t: Json)
    requires Canonical(num, t)
    ensures Print(t) != "" && !White(Print(t)[0]) && Print(t)[0] != ']'
  {}

  lemma LiteralBack(num: NumberReader, t: Json, rest: string)
    requires t.Null? || t.Bool?
    ensures ReadHere(num, Print(t) + rest) == Some((t, rest))
  {
    var s := Print(t) + rest;
    assert s[|Print(t)|..] == rest;
    assert Print(t) <= s;
  }

  lemma NumberBack(num: NumberReader, token: string, rest: string)
    requires Canonical(num, Num(token)) && Ends(Num(token), rest)
    ensures ReadHere(num, token + rest) == Some((Num(token), rest))
  {
    NumPrefixBack(token, rest);
    assert (token + rest)[|token|..] == rest;
  }

  /** A non-empty list of items or members is not mistaken for an empty one. */
  lemma BracketsBack(num: NumberReader, t: Json, s: string, rest: string)
    requires t.Arr? && t.items != [] ==>
               s != "" && !White(s[0]) && s[0] != ']' && ReadItems(num, s) == Some((t.items, rest))
    requires t.Obj? && t.members != [] ==>
               s != "" && !White(s[0]) && s[0] != '}' && ReadMembers(num, s) == Some((t.members, rest))
    ensures t.Arr? && t.items != [] ==> ReadHere(num, "[" + s) == Some((t, rest))
    ensures t.Obj? && t.members != [] ==> ReadHere(num, "{" + s) == Some((t, rest))
  {
    assert ("[" + s)[1..] == s && ("{" + s)[1..] == s;
  }

  lemma EmptyBack(num: NumberReader, t: Json, rest: string)
    requires t == Arr([]) || t == Obj([])
    ensures ReadHere(num, Print(t) + rest) == Some((t, rest))
  {
    var s := Print(t) + rest;
    assert s[1..][1..] == rest;
  }

  /** A printed value needs no white space skipped. */
  lemma ValueBack(num: NumberReader, t: Json, rest: string)
    requires Canonical(num, t)
    ensures ReadValue(num, Print(t) + rest) == ReadHere(num, Print(t) + rest)
  {
    PrintStarts(num, t);
    assert SkipWhite(Print(t) + rest) == Print(t) + rest;
  }

  lemma {:induction false} PrintBack(num: NumberReader, t: Json, rest: string)
    requires Canonical(num, t) && Ends(t, rest)
    ensures ReadValue(num, Print(t) + rest) == Some((t, rest))
    decreases t, 0
  {
    ValueBack(num, t, rest);
    match t
    case Null => LiteralBack(num, t, rest);
    case Bool(_) => LiteralBack(num, t, rest);
    case Num(token) => NumberBack(num, token, rest);
    case Str(str) => QuotedBack(num, str, rest);
    case Arr(items) =>
      if items != [] {
        ItemsBack(num, items, rest);
      }
      ArrayBack(num, t, rest);
    case Obj(members) =>
      if members != [] {
        MembersBack(num, members, rest);
      }
      ObjectBack(num, t, rest);
  }

  lemma QuotedBack(num: NumberReader, s: string, rest: string)
    ensures ReadHere(num, Print(Str(s)) + rest) == Some((Str(s), rest))
  {
    assert (Print(Str(s)) + rest)[1..] == PrintTail(s) + rest;
    StringBack(s, rest);
  }

  lemma ArrayBack(num: NumberReader, t: Json, rest: string)
    requires t.Arr?
    requires t.items != [] ==>
               Canonical(num, t.items[0]) && ReadItems(num, PrintItems(t.items) + rest) == Some((t.items, rest))
    ensures ReadHere(num, Print(t) + rest) == Some((t, rest))
  {
    if t.items == [] {
      EmptyBack(num, t, rest);
      return;
    }
    PrintStarts(num, t.items[0]);
    BracketsBack(num, t, PrintItems(t.items) + rest, rest);
    assert Print(t) + rest == "[" + (PrintItems(t.items) + rest);
  }

  lemma ObjectBack(num: NumberReader, t: Json, rest: string)
    requires t.Obj?
    requires t.members != [] ==> ReadMembers(num, PrintMembers(t.members) + rest) == Some((t.members, rest))
    ensures ReadHere(num, Print(t) + rest) == Some((t, rest))
  {
    if t.members == [] {
      EmptyBack(num, t, rest);
      return;
    }
    BracketsBack(num, t, PrintMembers(t.members) + rest, rest);
    assert Print(t) + rest == "{" + (PrintMembers(t.members) + rest);
  }

  /** What follows the first item in a printed array, and then `rest`. */
  function AfterItem(items: seq<Json>, rest: string): (r: string)
    requires items != []
    ensures r != ""
  {
    if |items| == 1 then "]" + rest else "," + (PrintItems(items[1..]) + rest)
  }

  lemma ItemsJoin(num: NumberReader, items: seq<Json>, rest: string)
    requires items != []
    requires ReadValue(num, Print(items[0]) + AfterItem(items, rest)) == Some((items[0], AfterItem(items, rest)))
    requires |items| > 1 ==> ReadItems(num, PrintItems(items[1..]) + rest) == Some((items[1..], rest))
    ensures ReadItems(num, PrintItems(items) + rest) == Some((items, rest))
  {
    var more := AfterItem(items, rest);
    assert PrintItems(items) + rest == Print(items[0]) + more;
    assert SkipWhite(more) == more;
    assert more[1..] == if |items| == 1 then rest else PrintItems(items[1..]) + rest;
    assert items == [items[0]] + items[1..];
    assert |items| == 1 ==> items == [items[0]];
  }

  lemma {:induction false} ItemsBack(num: NumberReader, items: seq<Json>, rest: string)
    requires items != [] && forall i | 0 <= i < |items| :: Canonical(num, items[i])
    ensures ReadItems(num, PrintItems(items) + rest) == Some((items, rest))
    decreases items, 1
  {
    PrintBack(num, items[0], AfterItem(items, rest));
    if |items| > 1 {
      ItemsBack(num, items[1..], rest);
    }
    ItemsJoin(num, items, rest);
  }

  function AfterMember(members: seq<Member>, rest: string): (r: string)
    requires members != []
    ensures r != ""
  {
    if |members| == 1 then "}" + rest else "," + (PrintMembers(members[1..]) + rest)
  }

  /** The text of an object's members, taken apart. */
  lemma MembersText(members: seq<Member>, rest: string)
    requires members != []
    ensures PrintMembers(members) + rest ==
            "\"" + (PrintTail(members[0].key) + (":" + (Print(members[0].value) + AfterMember(members, rest))))
  {
    var k, v := PrintTail(members[0].key), Print(members[0].value);
    var tail := if |members| == 1 then "}" else "," + PrintMembers(members[1..]);
    Regroup(v, tail, rest);
    Regroup(":", v + tail, rest);
    Regroup(k, ":" + (v + tail), rest);
    Regroup("\"", k + (":" + (v + tail)), rest);
    if |members| > 1 {
      Regroup(",", PrintMembers(members[1..]), rest);
    }
  }

  lemma Regroup(a: string, b: string, c: string)
    ensures (a + b) + c == a + (b + c)
  {}

  lemma FirstMember(num: NumberReader, members: seq<Member>, rest: string)
    requires members != []
    requires ReadValue(num, Print(members[0].value) + AfterMember(members, rest)) ==
             Some((members[0].value, AfterMember(members, rest)))
    ensures var s, more := PrintMembers(members) + rest, AfterMember(members, rest);
            && (more[0] == '}' ==> ReadMembers(num, s) == Some(([members[0]], more[1..])))
            && (more[0] == ',' && ReadMembers(num, more[1..]).Some? ==>
                  ReadMembers(num, s) == Some((Insert(ReadMembers(num, more[1..]).value.0, members[0]),
                                               ReadMembers(num, more[1..]).value.1)))
  {
    var m := members[0];
    var more := AfterMember(members, rest);
    var t := Print(m.value) + more;
    var s := PrintTail(m.key) + (":" + t);
    MembersText(members, rest);
    StringBack(m.key, ":" + t);
    assert ("\"" + s)[1..] == s;
    MembersStep(num, "\"" + s, m.key, t, m.value, more);
  }

  lemma MembersJoin(num: NumberReader, members: seq<Member>, rest: string)
    requires members != [] && SortedKeys(members)
    requires ReadValue(num, Print(members[0].value) + AfterMember(members, rest)) ==
             Some((members[0].value, AfterMember(members, rest)))
    requires |members| > 1 ==> ReadMembers(num, PrintMembers(members[1..]) + rest) == Some((members[1..], rest))
    ensures ReadMembers(num, PrintMembers(members) + rest) == Some((members, rest))
  {
    var m := members[0];
    var more := AfterMember(members, rest);
    FirstMember(num, members, rest);
    assert more[1..] == if |members| == 1 then rest else PrintMembers(members[1..]) + rest;
    if |members| == 1 {
      assert members == [m];
    } else {
      assert members == [m] + members[1..];
      InsertFirst(members[1..], m);
    }
  }

  lemma MembersStep(num: NumberReader, s: string, key: string, t: string, v: Json, more: string)
    requires s != "" && s[0] == '\"' && ReadTail(s[1..]) == Some((key, ":" + t))
    requires ReadValue(num, t) == Some((v, more)) && more != "" && (more[0] == '}' || more[0] == ',')
    ensures more[0] == '}' ==> ReadMembers(num, s) == Some(([Member(key, v)], more[1..]))
    ensures more[0] == ',' && ReadMembers(num, more[1..]).Some? ==>
              ReadMembers(num, s) ==
              Some((Insert(ReadMembers(num, more[1..]).value.0, Member(key, v)), ReadMembers(num, more[1..]).value.1))
  {
    assert SkipWhite(s) == s && SkipWhite(more) == more;
    assert SkipWhite(":" + t) == ":" + t && (":" + t)[1..] == t;
  }

  lemma {:induction false} MembersBack(num: NumberReader, members: seq<Member>, rest: string)
    requires members != [] && SortedKeys(members)
    requires forall i | 0 <= i < |members| :: Canonical(num, members[i].value)
    ensures ReadMembers(num, PrintMembers(members) + rest) == Some((members, rest))
    decreases members, 1
  {
    assert members[0] in members;
    PrintBack(num, members[0].value, AfterMember(members, rest));
    if |members| > 1 {
      MembersBack(num, members[1..], rest);
    }
    MembersJoin(num, members, rest);
  }

  /** Every canonical tree is read back from its printed form, and everything read is canonical. */
  lemma UnmarshalUndoesPrint(num: NumberReader, t: Json)
    requires Lawful(num) && Canonical(num, t)
    ensures Unmarshal(num, Print(t)) == Some(t)
  {
    PrintStarts(num, t);
    PrintBack(num, t, "");
    assert Print(t) + "" == Print(t);
  }

  lemma UnmarshalIsCanonical(num: NumberReader, s: string)
    requires Lawful(num)
    ensures Unmarshal(num, s).Some? ==> Canonical(num, Unmarshal(num, s).value)
  {
    ReadCanonical(num, SkipWhite(s));
  }
}
