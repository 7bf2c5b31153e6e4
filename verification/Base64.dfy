/** Base64 (section 4 of RFC 4648) as Go's base64.StdEncoding reads and writes it. */
module Base64 {
  import opened Prelude

  const PAD: byte := 61
  const CR: byte := 13
  const LF: byte := 10

  /** Table 1 of RFC 4648. */
  const ALPHABET := "ABCDEFGHIJKLMNOPQRSTUVWXYZ" + "abcdefghijklmnopqrstuvwxyz" + "0123456789" + "+/"

  /** The alphabet: A-Z, a-z, 0-9, +, /. */
  function Symbol(d: int): byte
    requires 0 <= d < 64
  {
    if d < 26 then (65 + d) as byte
    else if d < 52 then (71 + d) as byte
    else if d < 62 then (d - 4) as byte
    else if d == 62 then 43
    else 47
  }

  /** The value of a symbol; -1 for a byte outside the alphabet. */
  function Digit(c: byte): (d: int)
    ensures -1 <= d < 64
  {
    if 65 <= c <= 90 then c as int - 65
    else if 97 <= c <= 122 then c as int - 71
    else if 48 <= c <= 57 then c as int + 4
    else if c == 43 then 62
    else if c == 47 then 63
    else -1
  }

  lemma DigitOfSymbol(d: int)
    requires 0 <= d < 64
    ensures Digit(Symbol(d)) == d
    ensures Symbol(d) != PAD && Symbol(d) != CR && Symbol(d) != LF
  {}

  /** The four symbols of three bytes. */
  function Group(x: byte, y: byte, z: byte): (t: bytes)
    ensures |t| == 4
  {
    [Symbol(x as int / 4), Symbol(x as int % 4 * 16 + y as int / 16),
     Symbol(y as int % 16 * 4 + z as int / 64), Symbol(z as int % 64)]
  }

  /** The symbols are those of the table. */
  lemma AlphabetIs(d: int)
    requires 0 <= d < 64
    ensures |ALPHABET| == 64 && Symbol(d) as char == ALPHABET[d]
    ensures PAD as char == '='
  {
    PartAt("ABCDEFGHIJKLMNOPQRSTUVWXYZ", "abcdefghijklmnopqrstuvwxyz", "0123456789", "+/", d);
    if d < 26 {
      UpperCase(d);
    } else if d < 52 {
      LowerCase(d - 26);
    } else if d < 62 {
      Digits(d - 52);
    }
  }

  lemma PartAt(upper: string, lower: string, digits: string, signs: string, d: nat)
    requires |upper| == 26 && |lower| == 26 && |digits| == 10 && |signs| == 2 && d < 64
    ensures (upper + lower + digits + signs)[d] ==
            if d < 26 then upper[d] else if d < 52 then lower[d - 26]
            else if d < 62 then digits[d - 52] else signs[d - 62]
  {}

  lemma Digits(d: int)
    requires 0 <= d < 10
    ensures "0123456789"[d] as int == 48 + d
  {}

  lemma UpperCase(d: int)
    requires 0 <= d < 26
    ensures "ABCDEFGHIJKLMNOPQRSTUVWXYZ"[d] as int == 65 + d
  {}

  lemma LowerCase(d: int)
    requires 0 <= d < 26
    ensures "abcdefghijklmnopqrstuvwxyz"[d] as int == 97 + d
  {}

  function Encode(b: bytes): (t: bytes)
    ensures |t| == (|b| + 2) / 3 * 4
  {
    if b == [] then []
    else if |b| == 1 then
      [Symbol(b[0] as int / 4), Symbol(b[0] as int % 4 * 16), PAD, PAD]
    else if |b| == 2 then
      [Symbol(b[0] as int / 4), Symbol(b[0] as int % 4 * 16 + b[1] as int / 16), Symbol(b[1] as int % 16 * 4), PAD]
    else Group(b[0], b[1], b[2]) + Encode(b[3..])
  }

  function First(d0: int, d1: int): byte
    requires 0 <= d0 < 64 && 0 <= d1 < 64
  {
    (d0 * 4 + d1 / 16) as byte
  }

  function Second(d1: int, d2: int): byte
    requires 0 <= d1 < 64 && 0 <= d2 < 64
  {
    (d1 % 16 * 16 + d2 / 4) as byte
  }

  function Third(d2: int, d3: int): byte
    requires 0 <= d2 < 64 && 0 <= d3 < 64
  {
    (d2 % 4 * 64 + d3) as byte
  }

  /** Groups of four symbols; padding only in the last group, whose spare bits are not looked at. */
  function DecodeGroups(t: bytes): Option<bytes> {
    if t == [] then Some([])
    else if |t| < 4 then None
    else
      var d0, d1, d2, d3 := Digit(t[0]), Digit(t[1]), Digit(t[2]), Digit(t[3]);
      if d0 < 0 || d1 < 0 then None
      else if d2 >= 0 && d3 >= 0 then
        (match DecodeGroups(t[4..])
         case None => None
         case Some(rest) => Some([First(d0, d1), Second(d1, d2), Third(d2, d3)] + rest))
      else if |t| == 4 && t[3] == PAD && d2 >= 0 then Some([First(d0, d1), Second(d1, d2)])
      else if |t| == 4 && t[3] == PAD && t[2] == PAD then Some([First(d0, d1)])
      else None
  }

  function WithoutNewlines(t: bytes): bytes {
    if t == [] then []
    else (if t[0] == CR || t[0] == LF then [] else [t[0]]) + WithoutNewlines(t[1..])
  }

  function Decode(t: bytes): Option<bytes> {
    DecodeGroups(WithoutNewlines(t))
  }

  lemma {:induction false} NoNewlines(t: bytes)
    requires CR !in t && LF !in t
    ensures WithoutNewlines(t) == t
  {
    if t != [] {
      NoNewlines(t[1..]);
    }
  }

  lemma {:induction false} EncodeHasNoNewlines(b: bytes)
    ensures CR !in Encode(b) && LF !in Encode(b)
  {
    forall d | 0 <= d < 64 ensures Symbol(d) != CR && Symbol(d) != LF { DigitOfSymbol(d); }
    if |b| >= 3 {
      EncodeHasNoNewlines(b[3..]);
    }
  }

  /** The bits of a group come back. */
  lemma BitsComeBack(x: byte, y: byte, z: byte)
    ensures First(x as int / 4, x as int % 4 * 16 + y as int / 16) == x
    ensures Second(x as int % 4 * 16 + y as int / 16, y as int % 16 * 4 + z as int / 64) == y
    ensures Third(y as int % 16 * 4 + z as int / 64, z as int % 64) == z
  {}

  /** A full group in front of any text. */
  lemma GroupComesBack(x: byte, y: byte, z: byte, rest: bytes)
    ensures DecodeGroups(Group(x, y, z) + rest) ==
            if DecodeGroups(rest).None? then None else Some([x, y, z] + DecodeGroups(rest).value)
  {
    var d0, d1, d2, d3 :=
      x as int / 4, x as int % 4 * 16 + y as int / 16, y as int % 16 * 4 + z as int / 64, z as int % 64;
    BitsComeBack(x, y, z);
    DigitOfSymbol(d0);
    DigitOfSymbol(d1);
    DigitOfSymbol(d2);
    DigitOfSymbol(d3);
    assert Group(x, y, z) == [Symbol(d0), Symbol(d1), Symbol(d2), Symbol(d3)];
    assert (Group(x, y, z) + rest)[4..] == rest;
  }

  /** The padded group of one byte, and that of two. */
  lemma OneByteComesBack(x: byte)
    ensures DecodeGroups(Encode([x])) == Some([x])
  {
    BitsComeBack(x, 0, 0);
    DigitOfSymbol(x as int / 4);
    DigitOfSymbol(x as int % 4 * 16);
    assert Digit(PAD) == -1;
  }

  lemma TwoBytesComeBack(x: byte, y: byte)
    ensures DecodeGroups(Encode([x, y])) == Some([x, y])
  {
    var d0, d1, d2 := x as int / 4, x as int % 4 * 16 + y as int / 16, y as int % 16 * 4;
    BitsComeBack(x, y, 0);
    DigitOfSymbol(d0);
    DigitOfSymbol(d1);
    DigitOfSymbol(d2);
    assert Digit(PAD) == -1;
    assert Encode([x, y]) == [Symbol(d0), Symbol(d1), Symbol(d2), PAD];
  }

  lemma FullGroupInFront(b: bytes)
    requires |b| >= 3 && DecodeGroups(Encode(b[3..])) == Some(b[3..])
    ensures DecodeGroups(Encode(b)) == Some(b)
  {
    GroupComesBack(b[0], b[1], b[2], Encode(b[3..]));
    FirstThree(b);
  }

  lemma FirstThree(b: bytes)
    requires |b| >= 3
    ensures b == [b[0], b[1], b[2]] + b[3..]
  {}

  lemma {:induction false} GroupsUndoEncode(b: bytes)
    ensures DecodeGroups(Encode(b)) == Some(b)
  {
    if |b| >= 3 {
      GroupsUndoEncode(b[3..]);
      FullGroupInFront(b);
    } else if |b| == 2 {
      TwoBytesComeBack(b[0], b[1]);
      assert b == [b[0], b[1]];
    } else if |b| == 1 {
      OneByteComesBack(b[0]);
      assert b == [b[0]];
    }
  }

  /** A line break anywhere does not change what is decoded. */
  lemma {:induction false} LineBreaksIgnored(a: bytes, c: byte, b: bytes)
    requires c == 10 || c == 13
    ensures Decode(a + [c] + b) == Decode(a + b)
  {
    BreakDropped(a, c, b);
  }

  lemma {:induction false} BreakDropped(a: bytes, c: byte, b: bytes)
    requires c == 10 || c == 13
    ensures WithoutNewlines(a + [c] + b) == WithoutNewlines(a + b)
  {
    if a == [] {
      assert a + [c] + b == [c] + b && a + b == b;
    } else {
      assert (a + [c] + b)[1..] == a[1..] + [c] + b && (a + b)[1..] == a[1..] + b;
      BreakDropped(a[1..], c, b);
    }
  }

  lemma ForeignIsNoDigit(c: byte)
    ensures Digit(c) >= 0 ==> c as char in ALPHABET
  {
    var d := Digit(c);
    if d >= 0 {
      AlphabetIs(d);
      assert ALPHABET[d] in ALPHABET && Symbol(d) == c;
    }
  }

  /** A byte that is no symbol of the table, no padding and no line break makes the text an error. */
  lemma {:induction false} ForeignByteFails(t: bytes, i: nat)
    requires i < |t| && t[i] as char !in ALPHABET && t[i] as char != '=' && t[i] != 10 && t[i] != 13
    ensures Decode(t).None?
  {
    ForeignIsNoDigit(t[i]);
    ForeignByteStays(t, i);
    var u := WithoutNewlines(t);
    var k :| 0 <= k < |u| && u[k] == t[i];
    ForeignGroupFails(u, k);
  }

  lemma {:induction false} ForeignByteStays(t: bytes, i: nat)
    requires i < |t| && t[i] != 10 && t[i] != 13
    ensures t[i] in WithoutNewlines(t)
  {
    if i > 0 {
      ForeignByteStays(t[1..], i - 1);
    }
  }

  lemma {:induction false} ForeignGroupFails(u: bytes, k: nat)
    requires k < |u| && Digit(u[k]) == -1 && u[k] != PAD
    ensures DecodeGroups(u).None?
  {
    if k >= 4 {
      ForeignGroupFails(u[4..], k - 4);
    }
  }

  /** Decoding undoes encoding, for every byte string. */
  lemma {:induction false} DecodeUndoesEncode(b: bytes)
    ensures Decode(Encode(b)) == Some(b)
  {
    EncodeHasNoNewlines(b);
    NoNewlines(Encode(b));
    GroupsUndoEncode(b);
  }
}
