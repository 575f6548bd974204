/** What JSON texts look like, in the characters of RFC 8259: the tables behind the printer and the parser. */
module JsonText {
  import opened Wrappers
  import opened Octets
  import opened JsonStrings
  import opened Json

  /** The bytes of a text in ASCII. */
  function Ascii(s: string): (t: Text)
    requires forall i :: 0 <= i < |s| ==> s[i] as int < 128
    ensures |t| == |s| && forall i :: 0 <= i < |s| ==> t[i] == s[i] as int
  {
    seq(|s|, i requires 0 <= i < |s| => s[i] as int)
  }

  const LOWER: string := "0123456789abcdef"
  const UPPER: string := "0123456789ABCDEF"

  // ----- Section 7: strings -----

  /** The characters that stand for themselves or for a control character behind a backslash. */
  const MARKS: map<char, int> := map['"' := 0x22, '\\' := 0x5C, '/' := 0x2F, 'b' := 0x08, 'f' := 0x0C, 'n' := 0x0A,
                                     'r' := 0x0D, 't' := 0x09]

  lemma PlainIs(x: Byte)
    ensures Plain(x) == if x as char in MARKS then Some(MARKS[x as char]) else None
  {
  }

  /** A byte is written as it is, as one of the marks other than `/`, or with four digits. */
  lemma EscapeIs(c: Byte)
    ensures c == 0x22 ==> Escape(c) == Ascii("\\\"")
    ensures c == 0x5C ==> Escape(c) == Ascii("\\\\")
    ensures c == 0x08 ==> Escape(c) == Ascii("\\b")
    ensures c == 0x0C ==> Escape(c) == Ascii("\\f")
    ensures c == 0x0A ==> Escape(c) == Ascii("\\n")
    ensures c == 0x0D ==> Escape(c) == Ascii("\\r")
    ensures c == 0x09 ==> Escape(c) == Ascii("\\t")
    ensures c < 0x20 && c !in {0x08, 0x0C, 0x0A, 0x0D, 0x09} ==>
      Escape(c) == Ascii("\\u00") + [LOWER[c / 16] as int, LOWER[c % 16] as int]
    ensures c >= 0x20 && c != 0x22 && c != 0x5C ==> Escape(c) == [c]
  {
    if Short(c).None? && c < 32 {
      LowerIs(c / 16);
      LowerIs(c % 16);
      assert c / 0x1000 == 0 && c / 0x100 % 16 == 0 && c / 16 % 16 == c / 16;
      assert Hex(c) == [48, 48, HexDigit(c / 16), HexDigit(c % 16)];
    }
  }

  lemma LowerIs(v: nat)
    requires v < 16
    ensures HexDigit(v) == LOWER[v] as int
  {
  }

  /** Hexadecimal digits of either case, and nothing else, have a value. */
  lemma DigitIff(c: Byte, v: nat)
    requires v < 16
    ensures DigitValue(c) == v <==> LOWER[v] as int == c || UPPER[v] as int == c
  {
  }

  /** Examples of section 7 of RFC 3629. */
  lemma Utf8Examples()
    ensures Utf8(0x41) == [0x41] && Utf8(0x391) == [0xCE, 0x91] && Utf8(0x2262) == [0xE2, 0x89, 0xA2]
    ensures Utf8(0x65E5) == [0xE6, 0x97, 0xA5] && Utf8(0x2_33B4) == [0xF0, 0xA3, 0x8E, 0xB4]
  {
  }

  /** The first byte in which they differ is smaller. */
  predicate Less(a: Text, b: Text) { exists k :: 0 <= k < |a| && k < |b| && a[..k] == b[..k] && a[k] < b[k] }

  /** Bytes are ordered as the code points are, and no form is the start of another, as section 1 of RFC 3629 says. */
  lemma Utf8Order(x: nat, y: nat)
    requires x < y <= 0x10FFFF
    ensures Less(Utf8(x), Utf8(y))
  {
    if |Utf8(x)| != |Utf8(y)| || |Utf8(x)| == 1 {
      LessAt(Utf8(x), Utf8(y), 0);
    } else if |Utf8(x)| == 2 {
      Digits64(x, y);
      LessAt(Utf8(x), Utf8(y), if x / 64 == y / 64 then 1 else 0);
    } else if |Utf8(x)| == 3 {
      Order3(x, y);
    } else {
      Order4(x, y);
    }
  }

  lemma Order3(x: nat, y: nat)
    requires 0x800 <= x < y < 0x1_0000
    ensures Less(Utf8(x), Utf8(y))
  {
    var p, q, r := x / 0x1000, x / 64 % 64, x % 64;
    var p', q', r' := y / 0x1000, y / 64 % 64, y % 64;
    Digits64(x, y);
    Digits64(x / 64, y / 64);
    assert x / 64 / 64 == p && y / 64 / 64 == p';
    assert Utf8(x) == [0xE0 + p, 0x80 + q, 0x80 + r] && Utf8(y) == [0xE0 + p', 0x80 + q', 0x80 + r'];
    hide Utf8;
    LessAt(Utf8(x), Utf8(y), if p != p' then 0 else if q != q' then 1 else 2);
  }

  lemma Order4(x: nat, y: nat)
    requires 0x1_0000 <= x < y <= 0x10FFFF
    ensures Less(Utf8(x), Utf8(y))
  {
    var o, p, q, r := x / 0x4_0000, x / 0x1000 % 64, x / 64 % 64, x % 64;
    var o', p', q', r' := y / 0x4_0000, y / 0x1000 % 64, y / 64 % 64, y % 64;
    Digits64(x, y);
    Digits64(x / 64, y / 64);
    Digits64(x / 0x1000, y / 0x1000);
    assert x / 64 / 64 == x / 0x1000 && y / 64 / 64 == y / 0x1000;
    assert x / 0x1000 / 64 == o && y / 0x1000 / 64 == o';
    assert Utf8(x) == [0xF0 + o, 0x80 + p, 0x80 + q, 0x80 + r];
    assert Utf8(y) == [0xF0 + o', 0x80 + p', 0x80 + q', 0x80 + r'];
    hide Utf8;
    LessAt(Utf8(x), Utf8(y), if o != o' then 0 else if p != p' then 1 else if q != q' then 2 else 3);
  }

  lemma Digits64(x: nat, y: nat)
    requires x <= y
    ensures x / 64 <= y / 64 && (x / 64 == y / 64 && x < y ==> x % 64 < y % 64)
    ensures x == y ==> x % 64 == y % 64
  {
  }

  lemma LessAt(a: Text, b: Text, k: nat)
    requires k < |a| && k < |b| && (forall i :: 0 <= i < k ==> a[i] == b[i]) && a[k] < b[k]
    ensures Less(a, b)
  {
    assert a[..k] == b[..k];
  }

  /** Part of a string: a byte as it is, a mark, four digits, or eight for a surrogate pair. */
  datatype Piece = Raw(b: Byte) | Mark(x: char) | Unit(h: string) | Twin(h: string, l: string)

  predicate HexChar(x: char) { '0' <= x <= '9' || 'a' <= x <= 'f' || 'A' <= x <= 'F' }

  predicate IsHex(h: string) { |h| == 4 && forall i :: 0 <= i < 4 ==> HexChar(h[i]) }

  function DigitOf(x: char): (v: nat)
    requires HexChar(x)
    ensures v < 16 && (x == LOWER[v] || x == UPPER[v])
  {
    if '0' <= x <= '9' then x as int - '0' as int
    else if 'a' <= x <= 'f' then x as int - 'a' as int + 10
    else x as int - 'A' as int + 10
  }

  /** The number that four digits of either case stand for. */
  function HexOf(h: string): (v: nat)
    requires IsHex(h)
    ensures v < 0x1_0000
  {
    ((DigitOf(h[0]) * 16 + DigitOf(h[1])) * 16 + DigitOf(h[2])) * 16 + DigitOf(h[3])
  }

  predicate WellFormed(p: Piece) {
    match p
    case Raw(b) => b >= 0x20 && b != '"' as int && b != '\\' as int
    case Mark(x) => x in MARKS
    case Unit(h) => IsHex(h) && !(0xD800 <= HexOf(h) <= 0xDFFF)
    case Twin(h, l) => IsHex(h) && IsHex(l) && 0xD800 <= HexOf(h) <= 0xDBFF && 0xDC00 <= HexOf(l) <= 0xDFFF
  }

  function Spell(p: Piece): Text
    requires WellFormed(p)
  {
    match p
    case Raw(b) => [b]
    case Mark(x) => ['\\' as int, x as int]
    case Unit(h) => Ascii("\\u") + Ascii(h)
    case Twin(h, l) => Ascii("\\u") + Ascii(h) + Ascii("\\u") + Ascii(l)
  }

  /** What the piece stands for. */
  function Meant(p: Piece): Text
    requires WellFormed(p)
  {
    match p
    case Raw(b) => [b]
    case Mark(x) => [MARKS[x]]
    case Unit(h) => Utf8(HexOf(h))
    case Twin(h, l) => Utf8(0x1_0000 + (HexOf(h) - 0xD800) * 0x400 + (HexOf(l) - 0xDC00))
  }

  predicate AllWellFormed(ps: seq<Piece>) { forall i :: 0 <= i < |ps| ==> WellFormed(ps[i]) }

  function SpellAll(ps: seq<Piece>): Text
    requires AllWellFormed(ps)
  {
    if ps == [] then [] else Spell(ps[0]) + SpellAll(ps[1..])
  }

  function MeantAll(ps: seq<Piece>): Text
    requires AllWellFormed(ps)
  {
    if ps == [] then [] else Meant(ps[0]) + MeantAll(ps[1..])
  }

  lemma HexAscii(x: char)
    requires HexChar(x)
    ensures x as int < 128 && DigitValue(x as int) == DigitOf(x)
    ensures x as int != 34 && x as int != 92
  {
    DigitIff(x as int, DigitOf(x));
  }

  lemma HexRead(c: Text, i: nat, h: string)
    requires IsHex(h) && At(c, i, Ascii(h))
    ensures i + 4 <= |c| && Hex4(c, i) == HexOf(h)
  {
    hide DigitValue, DigitOf;
    forall j | 0 <= j < 4 ensures c[i + j] == h[j] as int && DigitValue(c[i + j]) == DigitOf(h[j]) {
      AtIndex(c, i, Ascii(h), j);
      HexAscii(h[j]);
    }
    assert c[i] == c[i + 0];
  }

  /** Six characters of the form `\uXXXX`. */
  lemma SixRead(c: Text, i: nat, h: string)
    requires IsHex(h) && At(c, i, Ascii("\\u") + Ascii(h))
    ensures i + 6 <= |c| && c[i] == BACKSLASH && c[i + 1] == LOWER_U && Hex4(c, i + 2) == HexOf(h)
    ensures Closing(c, i) == Closing(c, i + 6)
  {
    hide At, Hex4, HexOf, Closing;
    var u := Ascii("\\u");
    AtConcat(c, i, u, Ascii(h));
    AtIndex(c, i, u, 0);
    AtIndex(c, i, u, 1);
    HexRead(c, i + 2, h);
    forall k | i + 2 <= k < i + 6 ensures c[k] != QUOTE && c[k] != BACKSLASH {
      AtIndex(c, i + 2, Ascii(h), k - i - 2);
      HexAscii(h[k - i - 2]);
    }
    ClosingSkips(c, i);
  }

  lemma ClosingSkips(c: Text, i: nat)
    requires i + 6 <= |c| && c[i] == BACKSLASH
    requires forall k :: i + 2 <= k < i + 6 ==> c[k] != QUOTE && c[k] != BACKSLASH
    ensures Closing(c, i) == Closing(c, i + 6)
  {
    assert Closing(c, i + 2) == Closing(c, i + 3) == Closing(c, i + 4) == Closing(c, i + 5) == Closing(c, i + 6);
  }

  lemma PairIs(h: nat, l: nat)
    requires 0xD800 <= h <= 0xDBFF && 0xDC00 <= l <= 0xDFFF
    ensures High(h) && Low(l) && Pair(h, l) == 0x1_0000 + (h - 0xD800) * 0x400 + (l - 0xDC00)
  {
    assert h % 0x400 == h - 0xD800 && l % 0x400 == l - 0xDC00;
  }

  /** One piece, read by both scans. */
  lemma PieceRead(c: Text, i: nat, end: nat, p: Piece)
    requires WellFormed(p) && end < |c| && At(c, i, Spell(p)) && i + |Spell(p)| <= end
    ensures Unescape(c, i, end) == Then(Meant(p), Unescape(c, i + |Spell(p)|, end))
    ensures Closing(c, i) == Closing(c, i + |Spell(p)|)
  {
    hide At, Unescape, Closing, HexOf, Utf8, MARKS, Ascii;
    match p
    case Raw(b) => RawRead(c, i, end, b);
    case Mark(x) => MarkRead(x); MarkScanned(c, i, end, x);
    case Unit(h) => UnitRead(c, i, end, h);
    case Twin(h, l) => TwinRead(c, i, end, h, l);
  }

  lemma RawRead(c: Text, i: nat, end: nat, b: Byte)
    requires b != QUOTE && b != BACKSLASH && end < |c| && At(c, i, [b]) && i + 1 <= end
    ensures Unescape(c, i, end) == Then([b], Unescape(c, i + 1, end)) && Closing(c, i) == Closing(c, i + 1)
  {
    AtIndex(c, i, [b], 0);
  }

  lemma MarkScanned(c: Text, i: nat, end: nat, x: char)
    requires x in MARKS && x as int < 256 && end < |c| && At(c, i, ['\\' as int, x as int]) && i + 2 <= end
    ensures Unescape(c, i, end) == Then([MARKS[x]], Unescape(c, i + 2, end)) && Closing(c, i) == Closing(c, i + 2)
  {
    hide MARKS, Plain;
    AtIndex(c, i, ['\\' as int, x as int], 0);
    AtIndex(c, i, ['\\' as int, x as int], 1);
    MarkRead(x);
  }

  lemma UnitRead(c: Text, i: nat, end: nat, h: string)
    requires IsHex(h) && !(0xD800 <= HexOf(h) <= 0xDFFF) && end < |c| && i + 6 <= end
    requires At(c, i, Ascii("\\u") + Ascii(h))
    ensures Unescape(c, i, end) == Then(Utf8(HexOf(h)), Unescape(c, i + 6, end)) && Closing(c, i) == Closing(c, i + 6)
  {
    hide At, Hex4, HexOf, Utf8, Closing, HexChar;
    SixRead(c, i, h);
  }

  lemma TwinRead(c: Text, i: nat, end: nat, h: string, l: string)
    requires IsHex(h) && IsHex(l) && 0xD800 <= HexOf(h) <= 0xDBFF && 0xDC00 <= HexOf(l) <= 0xDFFF
    requires end < |c| && i + 12 <= end && At(c, i, Ascii("\\u") + Ascii(h) + Ascii("\\u") + Ascii(l))
    ensures Closing(c, i) == Closing(c, i + 12)
    ensures Unescape(c, i, end) ==
      Then(Utf8(0x1_0000 + (HexOf(h) - 0xD800) * 0x400 + (HexOf(l) - 0xDC00)), Unescape(c, i + 12, end))
  {
    hide At, Hex4, HexOf, Utf8, Closing, Pair;
    var u := Ascii("\\u");
    assert u + Ascii(h) + u + Ascii(l) == (u + Ascii(h)) + (u + Ascii(l));
    AtConcat(c, i, u + Ascii(h), u + Ascii(l));
    SixRead(c, i, h);
    SixRead(c, i + 6, l);
    PairIs(HexOf(h), HexOf(l));
  }

  lemma MarkRead(x: char)
    requires x in MARKS
    ensures 0 < x as int < 128 && x as int != LOWER_U && Plain(x as int) == Some(MARKS[x])
  {
    PlainIs(x as int);
  }

  /** Every string of RFC 8259 is read as what it stands for, whatever follows it. */
  lemma {:induction false} PiecesRead(c: Text, i: nat, ps: seq<Piece>)
    requires AllWellFormed(ps) && At(c, i, SpellAll(ps) + [QUOTE])
    ensures Closing(c, i) == Some(i + |SpellAll(ps)|)
    ensures i + |SpellAll(ps)| < |c| && Unescape(c, i, i + |SpellAll(ps)|) == Some(MeantAll(ps))
    decreases |ps|
  {
    hide At, Unescape, Closing, Spell, Meant, WellFormed;
    var e := SpellAll(ps);
    AtConcat(c, i, e, [QUOTE]);
    AtEnd(c, i + |e|, [QUOTE]);
    AtIndex(c, i + |e|, [QUOTE], 0);
    if ps == [] {
      Closed(c, i);
    } else {
      var a, b := Spell(ps[0]), SpellAll(ps[1..]);
      assert e + [QUOTE] == a + (b + [QUOTE]);
      AtConcat(c, i, a, b + [QUOTE]);
      PieceRead(c, i, i + |e|, ps[0]);
      PiecesRead(c, i + |a|, ps[1..]);
    }
  }

  /** The string in its quotes. */
  function InQuotes(ps: seq<Piece>): Text
    requires AllWellFormed(ps)
  {
    Ascii("\"") + SpellAll(ps) + Ascii("\"")
  }

  lemma StringRead(c: Text, o: nat, ps: seq<Piece>)
    requires AllWellFormed(ps) && At(c, o, InQuotes(ps))
    ensures o < |c| && ParseStr(c, o) == Some((MeantAll(ps), o + |InQuotes(ps)|))
  {
    hide At, Unescape, Closing, SpellAll, MeantAll, AllWellFormed;
    var e := SpellAll(ps);
    assert Ascii("\"") == [QUOTE] && InQuotes(ps) == [QUOTE] + (e + [QUOTE]);
    AtConcat(c, o, [QUOTE], e + [QUOTE]);
    AtEnd(c, o, InQuotes(ps));
    AtIndex(c, o, [QUOTE], 0);
    PiecesRead(c, o + 1, ps);
  }

  // ----- Sections 2 to 5: values -----

  /** Blanks between tokens. */
  predicate Blank(w: Text) { forall i :: 0 <= i < |w| ==> w[i] == 0x20 || w[i] == 0x09 || w[i] == 0x0A || w[i] == 0x0D }

  /** The characters of numbers, in section 6. */
  lemma NumberCharsAre(b: Byte)
    ensures NumberChar(b) <==> b as char in "0123456789+-eE."
    ensures NumberStart(b) <==> b as char in "-0123456789"
  {
  }

  /** A text by the grammar, with its blanks. */
  datatype Syntax =
    | SNull
    | SFalse
    | STrue
    | SNumber(token: Text)
    | SString(pieces: seq<Piece>)
    | SList(gap: Text, elems: SElems)
    | SObject(gap: Text, members: SMembers)

  datatype SElems = SNoElem | SElem(before: Text, value: Syntax, after: Text, next: SElems)

  datatype SMembers =
    | SNoMember
    | SMember(before: Text, name: seq<Piece>, gap: Text, lead: Text, value: Syntax, after: Text, next: SMembers)

  predicate Written(scan: Strtod, s: Syntax) {
    match s
    case SNumber(t) => Token(scan, t)
    case SString(ps) => AllWellFormed(ps)
    case SList(gap, es) => Blank(gap) && WrittenElems(scan, es)
    case SObject(gap, ms) => Blank(gap) && WrittenMembers(scan, ms)
    case _ => true
  }

  predicate WrittenElems(scan: Strtod, es: SElems) {
    es.SElem? ==> Blank(es.before) && Written(scan, es.value) && Blank(es.after) && WrittenElems(scan, es.next)
  }

  predicate WrittenMembers(scan: Strtod, ms: SMembers) {
    ms.SMember? ==>
      && Blank(ms.before) && AllWellFormed(ms.name) && Blank(ms.gap) && Blank(ms.lead)
      && Written(scan, ms.value) && Blank(ms.after) && WrittenMembers(scan, ms.next)
  }

  function Write(scan: Strtod, s: Syntax): Text
    requires Written(scan, s)
  {
    match s
    case SNull => Ascii("null")
    case SFalse => Ascii("false")
    case STrue => Ascii("true")
    case SNumber(t) => t
    case SString(ps) => InQuotes(ps)
    case SList(gap, es) => Ascii("[") + (if es.SNoElem? then gap + Ascii("]") else WriteElems(scan, es))
    case SObject(gap, ms) => Ascii("{") + (if ms.SNoMember? then gap + Ascii("}") else WriteMembers(scan, ms))
  }

  /** The elements and the closing bracket. */
  function WriteElems(scan: Strtod, es: SElems): Text
    requires WrittenElems(scan, es) && es.SElem?
    decreases es, 0
  {
    es.before + (Write(scan, es.value) + (es.after + ElemsTail(scan, es.next)))
  }

  function ElemsTail(scan: Strtod, next: SElems): Text
    requires WrittenElems(scan, next)
    decreases next, 1
  {
    if next.SNoElem? then Ascii("]") else Ascii(",") + WriteElems(scan, next)
  }

  function WriteMembers(scan: Strtod, ms: SMembers): Text
    requires WrittenMembers(scan, ms) && ms.SMember?
    decreases ms, 0
  {
    ms.before + (InQuotes(ms.name) + (ms.gap + (Ascii(":") + (ms.lead +
      (Write(scan, ms.value) + (ms.after + MembersTail(scan, ms.next)))))))
  }

  function MembersTail(scan: Strtod, next: SMembers): Text
    requires WrittenMembers(scan, next)
    decreases next, 1
  {
    if next.SNoMember? then Ascii("}") else Ascii(",") + WriteMembers(scan, next)
  }

  function Value(scan: Strtod, s: Syntax): Json.Value
    requires Written(scan, s)
  {
    match s
    case SNull => Null
    case SFalse => False
    case STrue => True
    case SNumber(t) => Number(t)
    case SString(ps) => String(MeantAll(ps))
    case SList(_, es) => List(ElemValues(scan, es))
    case SObject(_, ms) => Object(MemberValues(scan, ms))
  }

  function ElemValues(scan: Strtod, es: SElems): Elems
    requires WrittenElems(scan, es)
  {
    if es.SNoElem? then NoElem else Elem(Value(scan, es.value), ElemValues(scan, es.next))
  }

  function MemberValues(scan: Strtod, ms: SMembers): Members
    requires WrittenMembers(scan, ms)
  {
    if ms.SNoMember? then NoMember
    else Member(MeantAll(ms.name), Value(scan, ms.value), MemberValues(scan, ms.next))
  }

  lemma WordsAre()
    ensures Ascii("null") == NULL_TEXT && Ascii("false") == FALSE_TEXT && Ascii("true") == TRUE_TEXT
    ensures Ascii("[") == [OPEN_LIST] && Ascii("]") == [CLOSE_LIST] && Ascii("{") == [OPEN_OBJECT]
    ensures Ascii("}") == [CLOSE_OBJECT] && Ascii(",") == [COMMA] && Ascii(":") == [COLON] && Ascii("\"") == [QUOTE]
  {
  }

  /** A value starts with a character that is no blank and closes nothing. */
  lemma Starts(scan: Strtod, s: Syntax)
    requires Written(scan, s)
    ensures var t := Write(scan, s); t != [] && SPACE < t[0] < 128 && t[0] != CLOSE_LIST && t[0] != CLOSE_OBJECT
  {
    WordsAre();
  }

  lemma BlankLow(w: Text)
    requires Blank(w)
    ensures forall i :: 0 <= i < |w| ==> w[i] <= SPACE && !NumberChar(w[i])
  {
  }

  lemma TailStarts(scan: Strtod, next: SElems, after: Text)
    requires WrittenElems(scan, next) && Blank(after)
    ensures var t := ElemsTail(scan, next); t != [] && t[0] == (if next.SNoElem? then CLOSE_LIST else COMMA)
    ensures !NumberChar((after + ElemsTail(scan, next))[0])
  {
    hide WriteElems;
    WordsAre();
    BlankLow(after);
  }

  lemma MembersTailStarts(scan: Strtod, next: SMembers, after: Text)
    requires WrittenMembers(scan, next) && Blank(after)
    ensures var t := MembersTail(scan, next); t != [] && t[0] == (if next.SNoMember? then CLOSE_OBJECT else COMMA)
    ensures !NumberChar((after + MembersTail(scan, next))[0])
  {
    hide WriteMembers;
    WordsAre();
    BlankLow(after);
  }

  /**
   * Every text of the grammar is read as the value it stands for, exactly when the nesting limit allows:
   * wherever it stands, with whatever blanks, if no number character follows it.
   */
  lemma {:induction false} ReadValue(scan: Strtod, c: Text, o: nat, s: Syntax, d: nat)
    requires Terminated(c) && Written(scan, s) && At(c, o, Write(scan, s)) && d <= NESTING_LIMIT
    requires var e := o + |Write(scan, s)|; e < |c| && !NumberChar(c[e])
    ensures o < |c|
    ensures ParseVal(scan, c, o, d) == Expected(Value(scan, s), o + |Write(scan, s)|, Height(Value(scan, s)), d)
    decreases s, 2
  {
    hide ParseVal, At, Skip, WriteElems, WriteMembers, ElemValues, MemberValues, InQuotes, MeantAll, AllWellFormed;
    hide Ascii, NumberChar, Token;
    match s
    case SList(gap, es) => ReadList(scan, c, o, gap, es, d);
    case SObject(gap, ms) => ReadObject(scan, c, o, gap, ms, d);
    case SString(ps) => ReadString(scan, c, o, ps, d);
    case _ => ReadScalar(scan, c, o, s, d);
  }

  lemma ReadScalar(scan: Strtod, c: Text, o: nat, s: Syntax, d: nat)
    requires Terminated(c) && Written(scan, s) && (s.SNull? || s.SFalse? || s.STrue? || s.SNumber?)
    requires At(c, o, Write(scan, s)) && o + |Write(scan, s)| < |c| && !NumberChar(c[o + |Write(scan, s)|])
    ensures ParseVal(scan, c, o, d) == Some((Value(scan, s), o + |Write(scan, s)|))
  {
    hide ParseVal, At, NumberChar, Token;
    WordsAre();
    var v := Value(scan, s);
    assert Write(scan, s) == Render(v, false, 0);
    RoundScalar(scan, c, o, v, false, 0, d);
  }

  lemma ReadString(scan: Strtod, c: Text, o: nat, ps: seq<Piece>, d: nat)
    requires Terminated(c) && AllWellFormed(ps) && At(c, o, InQuotes(ps))
    ensures o < |c|
    ensures ParseVal(scan, c, o, d) == Some((String(MeantAll(ps)), o + |InQuotes(ps)|))
  {
    hide ParseStr, ParseNum, ParseElems, ParseMembers, At, InQuotes;
    StringRead(c, o, ps);
    QuoteFirst(ps, []);
    assert InQuotes(ps) + [] == InQuotes(ps);
    AtIndex(c, o, InQuotes(ps), 0);
    NotWord(c, o);
  }

  lemma {:induction false} ReadList(scan: Strtod, c: Text, o: nat, gap: Text, es: SElems, d: nat)
    requires Terminated(c) && Blank(gap) && WrittenElems(scan, es) && d <= NESTING_LIMIT
    requires At(c, o, Write(scan, SList(gap, es)))
    ensures o < |c|
    ensures var v := List(ElemValues(scan, es));
            ParseVal(scan, c, o, d) == Expected(v, o + |Write(scan, SList(gap, es))|, Height(v), d)
    decreases es, 1
  {
    hide ParseVal, ParseElems, ParseMembers, At, Skip, WriteElems, Expected, HeightElems;
    WordsAre();
    var e := if es.SNoElem? then gap + [CLOSE_LIST] else WriteElems(scan, es);
    assert Write(scan, SList(gap, es)) == [OPEN_LIST] + e;
    AtConcat(c, o, [OPEN_LIST], e);
    AtIndex(c, o, [OPEN_LIST], 0);
    AtEnd(c, o, [OPEN_LIST]);
    if es.SNoElem? {
      BlankLow(gap);
      Closes(c, o + 1, gap, [CLOSE_LIST]);
    } else {
      ElemsStart(scan, c, o + 1, es);
      if d < NESTING_LIMIT {
        ReadElems(scan, c, o + 1, es, d + 1);
        SkipFirst(scan, c, o + 1, d + 1);
      }
    }
    ListMeet(scan, c, o, ElemValues(scan, es), d, o + 1 + |e|);
  }

  /** Blanks, and then the first element. */
  lemma ElemsStart(scan: Strtod, c: Text, o: nat, es: SElems)
    requires WrittenElems(scan, es) && es.SElem? && At(c, o, WriteElems(scan, es))
    ensures o < |c| && Skip(c, o) == o + |es.before| && c[Skip(c, o)] != CLOSE_LIST
  {
    hide At, Skip, Write, ElemsTail;
    var t := Write(scan, es.value) + (es.after + ElemsTail(scan, es.next));
    Starts(scan, es.value);
    BlankLow(es.before);
    Closes(c, o, es.before, t);
  }

  lemma {:induction false} ReadElems(scan: Strtod, c: Text, o: nat, es: SElems, d: nat)
    requires Terminated(c) && WrittenElems(scan, es) && es.SElem? && d <= NESTING_LIMIT
    requires At(c, o, WriteElems(scan, es))
    ensures o < |c|
    ensures var v := ElemValues(scan, es);
            ParseElems(scan, c, o, d) == Expected(v, o + |WriteElems(scan, es)|, HeightElems(v), d)
    decreases es, 0
  {
    hide ParseVal, ParseElems, ParseMembers, At, Skip, Write, ElemsTail, Expected, Height, HeightElems, Value;
    var a, t, b, z := es.before, Write(scan, es.value), es.after, ElemsTail(scan, es.next);
    ElemsStart(scan, c, o, es);
    AtConcat(c, o, a, t + (b + z));
    AtConcat(c, o + |a|, t, b + z);
    var i := o + |a| + |t|;
    TailStarts(scan, es.next, b);
    AtEnd(c, i, b + z);
    AtIndex(c, i, b + z, 0);
    BlankLow(b);
    Closes(c, i, b, z);
    ReadValue(scan, c, o + |a|, es.value, d);
    if es.next.SElem? {
      AtConcat(c, i, b, z);
      NextElems(scan, c, i + |b|, es.next);
      ReadElems(scan, c, i + |b| + 1, es.next, d);
    }
    TailSize(scan, es.next);
    SameShape(scan, es.next, SNoMember);
    ElemsMeet(scan, c, o, ElemValues(scan, es), d, i, i + |b| + |z|);
  }

  lemma SameShape(scan: Strtod, es: SElems, ms: SMembers)
    requires WrittenElems(scan, es) && WrittenMembers(scan, ms)
    ensures ElemValues(scan, es).NoElem? <==> es.SNoElem?
    ensures MemberValues(scan, ms).NoMember? <==> ms.SNoMember?
  {
  }

  lemma NextElems(scan: Strtod, c: Text, o: nat, es: SElems)
    requires WrittenElems(scan, es) && es.SElem? && At(c, o, ElemsTail(scan, es))
    ensures At(c, o + 1, WriteElems(scan, es))
  {
    hide At, WriteElems;
    WordsAre();
    AtConcat(c, o, [COMMA], WriteElems(scan, es));
  }

  lemma TailSize(scan: Strtod, es: SElems)
    requires WrittenElems(scan, es)
    ensures |ElemsTail(scan, es)| == 1 + if es.SNoElem? then 0 else |WriteElems(scan, es)|
  {
    hide WriteElems;
  }

  lemma {:induction false} ReadObject(scan: Strtod, c: Text, o: nat, gap: Text, ms: SMembers, d: nat)
    requires Terminated(c) && Blank(gap) && WrittenMembers(scan, ms) && d <= NESTING_LIMIT
    requires At(c, o, Write(scan, SObject(gap, ms)))
    ensures o < |c|
    ensures var v := Object(MemberValues(scan, ms));
            ParseVal(scan, c, o, d) == Expected(v, o + |Write(scan, SObject(gap, ms))|, Height(v), d)
    decreases ms, 1
  {
    hide ParseVal, ParseElems, ParseMembers, ParseHead, At, Skip, WriteMembers, Expected, HeightMembers;
    hide MemberValues, InQuotes, MeantAll, Lead, Body, AllWellFormed;
    WordsAre();
    SameShape(scan, SNoElem, ms);
    var e := if ms.SNoMember? then gap + [CLOSE_OBJECT] else WriteMembers(scan, ms);
    assert Write(scan, SObject(gap, ms)) == [OPEN_OBJECT] + e;
    AtConcat(c, o, [OPEN_OBJECT], e);
    AtIndex(c, o, [OPEN_OBJECT], 0);
    AtEnd(c, o, [OPEN_OBJECT]);
    if ms.SNoMember? {
      BlankLow(gap);
      Closes(c, o + 1, gap, [CLOSE_OBJECT]);
    } else {
      ReadHead(scan, c, o + 1, ms);
      if d < NESTING_LIMIT {
        ReadMembers(scan, c, o + 1, ms, d + 1);
        SkipFirst(scan, c, o + 1, d + 1);
      }
    }
    ObjectMeet(scan, c, o, MemberValues(scan, ms), d, o + 1 + |e|);
  }

  /** Where the value of a member starts. */
  function Lead(ms: SMembers): nat
    requires ms.SMember? && AllWellFormed(ms.name)
  {
    |ms.before| + |InQuotes(ms.name)| + |ms.gap| + 1 + |ms.lead|
  }

  /** The value of a member and what follows it. */
  function Body(scan: Strtod, ms: SMembers): Text
    requires WrittenMembers(scan, ms) && ms.SMember?
  {
    Write(scan, ms.value) + (ms.after + MembersTail(scan, ms.next))
  }

  lemma QuoteFirst(ps: seq<Piece>, rest: Text)
    requires AllWellFormed(ps)
    ensures (InQuotes(ps) + rest)[0] == QUOTE
  {
    hide SpellAll;
    WordsAre();
  }

  /** The name, the colon and the blanks around them. */
  lemma ReadHead(scan: Strtod, c: Text, o: nat, ms: SMembers)
    requires Terminated(c) && WrittenMembers(scan, ms) && ms.SMember? && At(c, o, WriteMembers(scan, ms))
    ensures o < |c| && c[Skip(c, o)] == QUOTE && ParseHead(c, o) == Some((MeantAll(ms.name), o + Lead(ms)))
    ensures At(c, o + Lead(ms), Body(scan, ms))
  {
    hide At, Skip, ParseStr, InQuotes, Write, MembersTail, MeantAll, AllWellFormed;
    WordsAre();
    var a, q, g, l, body := ms.before, InQuotes(ms.name), ms.gap, ms.lead, Body(scan, ms);
    assert WriteMembers(scan, ms) == a + (q + (g + ([COLON] + (l + body))));
    AtConcat(c, o, a, q + (g + ([COLON] + (l + body))));
    AtConcat(c, o + |a|, q, g + ([COLON] + (l + body)));
    AtConcat(c, o + |a| + |q|, g, [COLON] + (l + body));
    AtConcat(c, o + |a| + |q| + |g|, [COLON], l + body);
    AtConcat(c, o + |a| + |q| + |g| + 1, l, body);
    BlankLow(a);
    BlankLow(g);
    BlankLow(l);
    QuoteFirst(ms.name, g + ([COLON] + (l + body)));
    Closes(c, o, a, q + (g + ([COLON] + (l + body))));
    StringRead(c, o + |a|, ms.name);
    Closes(c, o + |a| + |q|, g, [COLON] + (l + body));
    Starts(scan, ms.value);
    Closes(c, o + |a| + |q| + |g| + 1, l, body);
  }

  lemma {:induction false} ReadMembers(scan: Strtod, c: Text, o: nat, ms: SMembers, d: nat)
    requires Terminated(c) && WrittenMembers(scan, ms) && ms.SMember? && d <= NESTING_LIMIT
    requires At(c, o, WriteMembers(scan, ms))
    ensures o < |c|
    ensures var v := MemberValues(scan, ms);
            ParseMembers(scan, c, o, d) == Expected(v, o + |WriteMembers(scan, ms)|, HeightMembers(v), d)
    decreases ms, 0
  {
    hide ParseVal, ParseElems, ParseMembers, ParseHead, At, Skip, Write, MembersTail, Expected, Height, HeightMembers;
    hide Value, InQuotes, MeantAll, AllWellFormed;
    var t, b, z := Write(scan, ms.value), ms.after, MembersTail(scan, ms.next);
    ReadHead(scan, c, o, ms);
    var k := o + Lead(ms);
    AtConcat(c, k, t, b + z);
    var i := k + |t|;
    MembersTailStarts(scan, ms.next, b);
    AtEnd(c, i, b + z);
    AtIndex(c, i, b + z, 0);
    BlankLow(b);
    Closes(c, i, b, z);
    ReadValue(scan, c, k, ms.value, d);
    if ms.next.SMember? {
      AtConcat(c, i, b, z);
      NextMembers(scan, c, i + |b|, ms.next);
      ReadMembers(scan, c, i + |b| + 1, ms.next, d);
    }
    MembersSize(scan, ms);
    SameShape(scan, SNoElem, ms.next);
    MembersMeet(scan, c, o, MemberValues(scan, ms), d, i, i + |b| + |z|);
  }

  lemma NextMembers(scan: Strtod, c: Text, o: nat, ms: SMembers)
    requires WrittenMembers(scan, ms) && ms.SMember? && At(c, o, MembersTail(scan, ms))
    ensures At(c, o + 1, WriteMembers(scan, ms))
  {
    hide At, WriteMembers;
    WordsAre();
    AtConcat(c, o, [COMMA], WriteMembers(scan, ms));
  }

  lemma MembersSize(scan: Strtod, ms: SMembers)
    requires WrittenMembers(scan, ms) && ms.SMember?
    ensures |WriteMembers(scan, ms)| ==
            Lead(ms) + |Write(scan, ms.value)| + |ms.after| + |MembersTail(scan, ms.next)|
    ensures |MembersTail(scan, ms.next)| == 1 + if ms.next.SNoMember? then 0 else |WriteMembers(scan, ms.next)|
  {
    hide Write, InQuotes;
    WordsAre();
  }

  /** The byte order mark, in UTF-8. */
  const BOM: Text := [0xEF, 0xBB, 0xBF]

  /**
   * `cJSON_Parse` reads every text of RFC 8259 that nests at most 1000 deep as the value it stands for, with
   * or without a byte order mark, whatever blanks are around it.
   */
  lemma ReadText(scan: Strtod, marked: bool, lead: Text, s: Syntax, trail: Text)
    requires Written(scan, s) && Blank(lead) && Blank(trail)
    ensures
      var t := lead + (Write(scan, s) + trail);
      var v := Value(scan, s);
      Parse(scan, if marked then BOM + t else t) == if Height(v) <= 1000 then Some(v) else None
  {
    hide ParseVal, Skip, Write, CString, Value, At, Json.Start, NulFree;
    var w := Write(scan, s);
    var t := lead + (w + trail);
    var all := if marked then BOM + t else t;
    var c := all + [0];
    var k := if marked then 3 else 0;
    WriteClean(scan, s);
    NoNul(marked, lead, w, trail);
    CStringOf(all);
    Starts(scan, s);
    BlankLow(lead);
    MarkSeen(marked, t, c);
    assert c[k..] == lead + (w + (trail + [0]));
    AtTail(c, k);
    ReadAt(scan, c, k, lead, s, trail);
  }

  lemma ReadAt(scan: Strtod, c: Text, k: nat, lead: Text, s: Syntax, trail: Text)
    requires Terminated(c) && Written(scan, s) && Blank(lead) && Blank(trail)
    requires At(c, k, lead + (Write(scan, s) + (trail + [0])))
    ensures k < |c|
    ensures var v, e := Value(scan, s), k + |lead| + |Write(scan, s)|;
            ParseVal(scan, c, Skip(c, k), 0) == Expected(v, e, Height(v), 0)
  {
    hide ParseVal, Skip, Write, Value, At, NumberChar, Expected, Height;
    var w := Write(scan, s);
    Starts(scan, s);
    BlankLow(lead);
    AtConcat(c, k, lead, w + (trail + [0]));
    AtConcat(c, k + |lead|, w, trail + [0]);
    Closes(c, k, lead, w + (trail + [0]));
    AtEnd(c, k + |lead| + |w|, trail + [0]);
    AtIndex(c, k + |lead| + |w|, trail + [0], 0);
    AfterText(trail);
    ReadValue(scan, c, k + |lead|, s, 0);
  }

  /** No text of the grammar holds a NUL. */
  lemma {:induction false} WriteClean(scan: Strtod, s: Syntax)
    requires Written(scan, s)
    ensures NulFree(Write(scan, s))
    decreases s, 1
  {
    hide SpellAll, WriteElems, WriteMembers;
    WordsAre();
    match s
    case SString(ps) => SpellClean(ps);
    case SList(_, es) => if es.SElem? { ElemsClean(scan, es); }
    case SObject(_, ms) => if ms.SMember? { MembersClean(scan, ms); }
    case _ =>
  }

  lemma {:induction false} SpellClean(ps: seq<Piece>)
    requires AllWellFormed(ps)
    ensures NulFree(SpellAll(ps)) && NulFree(InQuotes(ps))
    decreases |ps|
  {
    hide WellFormed, Spell;
    WordsAre();
    if ps != [] {
      SpellClean(ps[1..]);
      PieceClean(ps[0]);
    }
  }

  lemma PieceClean(p: Piece)
    requires WellFormed(p)
    ensures NulFree(Spell(p))
  {
    hide MARKS, NulFree, HexOf;
    var u := Ascii("\\u");
    match p
    case Raw(b) => OneClean(b);
    case Mark(x) => MarkRead(x); OneClean('\\' as int); OneClean(x as int); BothClean(['\\' as int], [x as int]);
      assert Spell(p) == ['\\' as int] + [x as int];
    case Unit(h) => HexClean(h); BothClean(u, Ascii(h));
    case Twin(h, l) =>
      HexClean(h);
      HexClean(l);
      BothClean(u, Ascii(h));
      BothClean(u + Ascii(h), u);
      BothClean(u + Ascii(h) + u, Ascii(l));
  }

  lemma OneClean(b: Byte)
    ensures b != 0 ==> NulFree([b])
  {
  }

  lemma BothClean(a: Text, b: Text)
    requires NulFree(a) && NulFree(b)
    ensures NulFree(a + b)
  {
  }

  lemma HexClean(h: string)
    requires IsHex(h)
    ensures NulFree(Ascii(h)) && NulFree(Ascii("\\u"))
  {
  }

  lemma {:induction false} ElemsClean(scan: Strtod, es: SElems)
    requires WrittenElems(scan, es) && es.SElem?
    ensures NulFree(WriteElems(scan, es))
    decreases es, 0
  {
    hide Write;
    WriteClean(scan, es.value);
    if es.next.SElem? { ElemsClean(scan, es.next); }
    TailClean(scan, es.next, SNoMember);
  }

  lemma TailClean(scan: Strtod, es: SElems, ms: SMembers)
    requires WrittenElems(scan, es) && (es.SElem? ==> NulFree(WriteElems(scan, es)))
    requires WrittenMembers(scan, ms) && (ms.SMember? ==> NulFree(WriteMembers(scan, ms)))
    ensures NulFree(ElemsTail(scan, es)) && NulFree(MembersTail(scan, ms))
  {
    hide WriteElems, WriteMembers;
  }

  lemma {:induction false} MembersClean(scan: Strtod, ms: SMembers)
    requires WrittenMembers(scan, ms) && ms.SMember?
    ensures NulFree(WriteMembers(scan, ms))
    decreases ms, 0
  {
    hide Write, InQuotes, MembersTail, NulFree, Blank, Ascii;
    WriteClean(scan, ms.value);
    SpellClean(ms.name);
    if ms.next.SMember? { MembersClean(scan, ms.next); }
    TailClean(scan, SNoElem, ms.next);
    BlankClean(ms.before);
    BlankClean(ms.gap);
    BlankClean(ms.lead);
    BlankClean(ms.after);
    var z := ms.after + MembersTail(scan, ms.next);
    BothClean(ms.after, MembersTail(scan, ms.next));
    BothClean(Write(scan, ms.value), z);
    BothClean(ms.lead, Write(scan, ms.value) + z);
    BothClean(Ascii(":"), ms.lead + (Write(scan, ms.value) + z));
    BothClean(ms.gap, Ascii(":") + (ms.lead + (Write(scan, ms.value) + z)));
    BothClean(InQuotes(ms.name), ms.gap + (Ascii(":") + (ms.lead + (Write(scan, ms.value) + z))));
    BothClean(ms.before, InQuotes(ms.name) + (ms.gap + (Ascii(":") + (ms.lead + (Write(scan, ms.value) + z)))));
  }

  lemma BlankClean(w: Text)
    requires Blank(w)
    ensures NulFree(w) && NulFree(Ascii(":"))
  {
  }

  lemma AfterText(trail: Text)
    requires Blank(trail)
    ensures !NumberChar((trail + [0])[0])
  {
  }

  lemma NoNul(marked: bool, lead: Text, w: Text, trail: Text)
    requires Blank(lead) && Blank(trail) && NulFree(w)
    ensures NulFree(if marked then BOM + (lead + (w + trail)) else lead + (w + trail))
  {
  }

  lemma AtTail(c: Text, k: nat)
    requires k <= |c|
    ensures At(c, k, c[k..])
  {
    assert c[k..k + |c[k..]|] == c[k..];
  }

  lemma MarkSeen(marked: bool, t: Text, c: Text)
    requires t != [] && t[0] < 128 && c == (if marked then BOM + t else t) + [0]
    ensures Json.Start(c) == if marked then 3 else 0
  {
    if marked {
      assert c[..3] == BOM;
    } else if |c| > 4 {
      assert c[..3][0] == t[0];
    }
  }

  // ----- What is printed is such a text -----

  function PieceOf(c: Byte): Piece {
    if c == 0x22 then Mark('"')
    else if c == 0x5C then Mark('\\')
    else if c == 0x08 then Mark('b')
    else if c == 0x0C then Mark('f')
    else if c == 0x0A then Mark('n')
    else if c == 0x0D then Mark('r')
    else if c == 0x09 then Mark('t')
    else if c < 0x20 then Unit(['0', '0', LOWER[c / 16], LOWER[c % 16]])
    else Raw(c)
  }

  lemma PieceOfIs(c: Byte)
    ensures WellFormed(PieceOf(c)) && Spell(PieceOf(c)) == Escape(c) && Meant(PieceOf(c)) == [c]
  {
    hide Escape;
    EscapeIs(c);
    if PieceOf(c).Unit? { UnitOfIs(c); }
  }

  lemma UnitOfIs(c: Byte)
    requires c < 0x20
    ensures
      var h := ['0', '0', LOWER[c / 16], LOWER[c % 16]];
      && IsHex(h) && HexOf(h) == c && Utf8(c) == [c]
      && Ascii("\\u") + Ascii(h) == Ascii("\\u00") + [LOWER[c / 16] as int, LOWER[c % 16] as int]
  {
    LowerChar(c / 16);
    LowerChar(c % 16);
  }

  lemma LowerChar(v: nat)
    requires v < 16
    ensures HexChar(LOWER[v]) && DigitOf(LOWER[v]) == v
  {
  }

  function PiecesOf(s: Text): seq<Piece> { if s == [] then [] else [PieceOf(s[0])] + PiecesOf(s[1..]) }

  lemma {:induction false} PiecesOfIs(s: Text)
    ensures AllWellFormed(PiecesOf(s)) && SpellAll(PiecesOf(s)) == Escaped(s) && MeantAll(PiecesOf(s)) == s
    ensures InQuotes(PiecesOf(s)) == Quoted(s)
  {
    hide PieceOf, WellFormed, Spell, Meant, Escape;
    WordsAre();
    if s == [] {
      EscapedSnoc([], 0);
    } else {
      PieceOfIs(s[0]);
      PiecesOfIs(s[1..]);
      EscapedCons(s);
      var ps := PiecesOf(s);
      assert ps[0] == PieceOf(s[0]) && ps[1..] == PiecesOf(s[1..]);
    }
  }

  /** The syntax of what is printed for a value inside `d` lists and objects. */
  function SyntaxOf(v: Json.Value, fmt: bool, d: nat): Syntax {
    match v
    case Null => SNull
    case False => SFalse
    case True => STrue
    case Number(t) => SNumber(t)
    case String(s) => SString(PiecesOf(s))
    case List(es) => SList([], ElemsOf(es, fmt, d + 1, []))
    case Object(ms) => SObject(If(fmt, [NEWLINE]) + If(fmt, Tabs(d)), MembersOf(ms, fmt, d))
  }

  function ElemsOf(es: Elems, fmt: bool, d: nat, before: Text): SElems {
    match es
    case NoElem => SNoElem
    case Elem(v, next) => SElem(before, SyntaxOf(v, fmt, d), [], ElemsOf(next, fmt, d, If(fmt, [SPACE])))
  }

  function MembersOf(ms: Members, fmt: bool, d: nat): SMembers {
    match ms
    case NoMember => SNoMember
    case Member(name, v, next) =>
      SMember(If(fmt, [NEWLINE]) + If(fmt, Tabs(d + 1)), PiecesOf(name), [], If(fmt, [TAB]), SyntaxOf(v, fmt, d + 1),
              If(next.NoMember?, If(fmt, [NEWLINE]) + If(fmt, Tabs(d))), MembersOf(next, fmt, d))
  }

  lemma Indents(fmt: bool, d: nat)
    ensures Blank(If(fmt, [NEWLINE]) + If(fmt, Tabs(d)))
    ensures Blank(If(fmt, [SPACE])) && Blank(If(fmt, [TAB])) && Blank([])
  {
  }

  /** Everything printed is a text of the grammar, and stands for the value printed. */
  lemma {:induction false} PrintedByGrammar(scan: Strtod, v: Json.Value, fmt: bool, d: nat)
    requires Proper(scan, v)
    ensures
      var s := SyntaxOf(v, fmt, d);
      Written(scan, s) && Write(scan, s) == Render(v, fmt, d) && Value(scan, s) == v
    decreases v, 2
  {
    hide PiecesOf, InQuotes, Quoted, MeantAll, AllWellFormed, RenderElems, RenderMembers, WriteElems, WriteMembers;
    hide Token, Blank, Ascii;
    WordsAre();
    match v
    case String(s) => PiecesOfIs(s);
    case List(es) => PrintedList(scan, es, fmt, d);
    case Object(ms) => PrintedObject(scan, ms, fmt, d);
    case _ =>
  }

  lemma {:induction false} PrintedList(scan: Strtod, es: Elems, fmt: bool, d: nat)
    requires ProperElems(scan, es)
    ensures
      var s := SyntaxOf(List(es), fmt, d);
      Written(scan, s) && Write(scan, s) == Render(List(es), fmt, d) && Value(scan, s) == List(es)
    decreases es, 2
  {
    hide RenderElems, WriteElems, ElemsOf, Blank, Ascii;
    WordsAre();
    Indents(fmt, d);
    PrintedElems(scan, es, fmt, d + 1, []);
    NoElems(fmt, d + 1);
    var r := RenderElems(es, fmt, d + 1);
    assert [OPEN_LIST] + ([] + r + [CLOSE_LIST]) == [OPEN_LIST] + r + [CLOSE_LIST];
  }

  lemma {:induction false} PrintedObject(scan: Strtod, ms: Members, fmt: bool, d: nat)
    requires ProperMembers(scan, ms)
    ensures
      var s := SyntaxOf(Object(ms), fmt, d);
      Written(scan, s) && Write(scan, s) == Render(Object(ms), fmt, d) && Value(scan, s) == Object(ms)
    decreases ms, 2
  {
    hide RenderMembers, WriteMembers, MembersOf, Blank, Ascii, Tabs, If;
    WordsAre();
    Indents(fmt, d);
    PrintedMembers(scan, ms, fmt, d);
    var n, r, z := If(fmt, [NEWLINE]), RenderMembers(ms, fmt, d + 1), If(fmt, Tabs(d));
    if ms.NoMember? { NoMembers(fmt, d + 1); }
    ObjectJoined(n, r, z);
  }

  lemma ObjectJoined(n: Text, r: Text, z: Text)
    ensures [OPEN_OBJECT] + (n + r + z + [CLOSE_OBJECT]) == [OPEN_OBJECT] + n + r + z + [CLOSE_OBJECT]
    ensures [OPEN_OBJECT] + ((n + z) + [CLOSE_OBJECT]) == [OPEN_OBJECT] + n + [] + z + [CLOSE_OBJECT]
  {
  }

  lemma NoElems(fmt: bool, d: nat)
    ensures RenderElems(NoElem, fmt, d) == []
  {
  }

  lemma {:induction false} PrintedElems(scan: Strtod, es: Elems, fmt: bool, d: nat, before: Text)
    requires ProperElems(scan, es) && Blank(before)
    ensures
      var s := ElemsOf(es, fmt, d, before);
      && WrittenElems(scan, s) && ElemValues(scan, s) == es && (s.SNoElem? <==> es.NoElem?)
      && (es.Elem? ==> WriteElems(scan, s) == before + RenderElems(es, fmt, d) + [CLOSE_LIST])
    decreases es, 1
  {
    hide Write, Render, Blank, SyntaxOf, Value;
    WordsAre();
    if es.Elem? {
      Indents(fmt, d);
      PrintedByGrammar(scan, es.value, fmt, d);
      PrintedElems(scan, es.next, fmt, d, If(fmt, [SPACE]));
      var s := ElemsOf(es, fmt, d, before);
      assert [] + ElemsTail(scan, s.next) == ElemsTail(scan, s.next);
      ElemsJoined(before, Render(es.value, fmt, d), If(fmt, [SPACE]), RenderElems(es.next, fmt, d));
      assert es.next.Elem? ==>
        ElemsTail(scan, s.next) == [COMMA] + (If(fmt, [SPACE]) + RenderElems(es.next, fmt, d) + [CLOSE_LIST]);
    }
  }

  lemma ElemsJoined(a: Text, t: Text, b: Text, r: Text)
    ensures a + (t + ([COMMA] + (b + r + [CLOSE_LIST]))) == a + (t + ([COMMA] + b + r)) + [CLOSE_LIST]
    ensures a + (t + [CLOSE_LIST]) == a + (t + []) + [CLOSE_LIST]
  {
  }

  lemma {:induction false} PrintedMembers(scan: Strtod, ms: Members, fmt: bool, d: nat)
    requires ProperMembers(scan, ms)
    ensures
      var s := MembersOf(ms, fmt, d);
      && WrittenMembers(scan, s) && MemberValues(scan, s) == ms && (s.SNoMember? <==> ms.NoMember?)
      && (ms.Member? ==>
            WriteMembers(scan, s) ==
            If(fmt, [NEWLINE]) + RenderMembers(ms, fmt, d + 1) + If(fmt, Tabs(d)) + [CLOSE_OBJECT])
    decreases ms, 1
  {
    hide Write, Render, Blank, SyntaxOf, Value, InQuotes, Quoted, PiecesOf, MeantAll, AllWellFormed, Tabs;
    WordsAre();
    if ms.Member? {
      Indents(fmt, d);
      Indents(fmt, d + 1);
      PiecesOfIs(ms.name);
      PrintedByGrammar(scan, ms.value, fmt, d + 1);
      PrintedMembers(scan, ms.next, fmt, d);
      NoMembers(fmt, d + 1);
      var s := MembersOf(ms, fmt, d);
      MembersJoined(fmt, If(fmt, Tabs(d + 1)), Quoted(ms.name), If(fmt, [TAB]), Render(ms.value, fmt, d + 1),
                    RenderMembers(ms.next, fmt, d + 1), If(fmt, Tabs(d)));
    }
  }

  lemma MembersJoined(fmt: bool, tabs: Text, q: Text, tab: Text, t: Text, rest: Text, last: Text)
    ensures
      var nl := If(fmt, [NEWLINE]);
      && (nl + tabs) + (q + ([] + ([COLON] + (tab + (t + ([] + ([COMMA] + (nl + rest + last + [CLOSE_OBJECT])))))))) ==
         nl + (tabs + q + [COLON] + tab + t + [COMMA] + nl + rest) + last + [CLOSE_OBJECT]
      && (nl + tabs) + (q + ([] + ([COLON] + (tab + (t + (nl + last + [CLOSE_OBJECT])))))) ==
         nl + (tabs + q + [COLON] + tab + t + [] + nl + []) + last + [CLOSE_OBJECT]
  {
  }

  // ----- The round trip -----

  /**
   * A printed value is read back, exactly when the nesting limit allows: wherever it stands in a
   * buffer, and at whatever depth, if no number character follows it.
   */
  lemma RoundValue(scan: Strtod, c: Text, o: nat, v: Json.Value, fmt: bool, pd: nat, d: nat)
    requires Terminated(c) && Proper(scan, v) && At(c, o, Render(v, fmt, pd)) && d <= NESTING_LIMIT
    requires var e := o + |Render(v, fmt, pd)|; e < |c| && !NumberChar(c[e])
    ensures o < |c|
    ensures ParseVal(scan, c, o, d) == Expected(v, o + |Render(v, fmt, pd)|, Height(v), d)
  {
    hide ParseVal, Render, At, SyntaxOf, Written, Write, Value;
    PrintedByGrammar(scan, v, fmt, pd);
    ReadValue(scan, c, o, SyntaxOf(v, fmt, pd), d);
  }

  /** Parsing what was printed, formatted or not, gives the value back exactly when it nests at most 1000 deep. */
  lemma RoundTrip(scan: Strtod, v: Json.Value, fmt: bool)
    requires Proper(scan, v)
    ensures Parse(scan, Render(v, fmt, 0)) == if Height(v) <= 1000 then Some(v) else None
  {
    hide Parse, Render, SyntaxOf, Written, Write, Value;
    PrintedByGrammar(scan, v, fmt, 0);
    ReadText(scan, false, [], SyntaxOf(v, fmt, 0), []);
    assert [] + (Render(v, fmt, 0) + []) == Render(v, fmt, 0);
  }

  // ----- What the two forms look like -----

  /** A list has its elements behind each other; formatted, a blank follows each comma. */
  lemma ListForm(v: Json.Value, next: Elems, fmt: bool, d: nat)
    ensures Render(List(NoElem), fmt, d) == Ascii("[]")
    ensures Render(List(Elem(v, next)), fmt, d) == Ascii("[") + RenderElems(Elem(v, next), fmt, d + 1) + Ascii("]")
    ensures RenderElems(Elem(v, NoElem), fmt, d) == Render(v, fmt, d)
    ensures next.Elem? ==>
      RenderElems(Elem(v, next), fmt, d) ==
      Render(v, fmt, d) + Ascii(if fmt then ", " else ",") + RenderElems(next, fmt, d)
  {
    hide Render;
    WordsAre();
    assert Ascii(", ") == [COMMA, SPACE];
    ListText(v, next, fmt, d);
  }

  lemma ListText(v: Json.Value, next: Elems, fmt: bool, d: nat)
    ensures Render(List(NoElem), fmt, d) == [OPEN_LIST, CLOSE_LIST] == Ascii("[]")
    ensures Render(List(Elem(v, next)), fmt, d) == [OPEN_LIST] + RenderElems(Elem(v, next), fmt, d + 1) + [CLOSE_LIST]
  {
    NoElems(fmt, d + 1);
  }

  /** Formatted, an object has its members on lines of their own, between the braces. */
  lemma ObjectForm(ms: Members, d: nat)
    ensures Render(Object(ms), false, d) == Ascii("{") + RenderMembers(ms, false, d + 1) + Ascii("}")
    ensures Render(Object(ms), true, d) == Ascii("{\n") + RenderMembers(ms, true, d + 1) + Indent(d) + Ascii("}")
  {
    WordsAre();
    assert Ascii("{\n") == [OPEN_OBJECT] + [NEWLINE] && Indent(d) == Tabs(d);
    hide RenderMembers, Ascii, Tabs, Indent;
    BracesJoined(RenderMembers(ms, false, d + 1));
  }

  lemma BracesJoined(r: Text)
    ensures [OPEN_OBJECT] + [] + r + [] + [CLOSE_OBJECT] == [OPEN_OBJECT] + r + [CLOSE_OBJECT]
  {
  }

  lemma MemberForm(ms: Members, d: nat)
    requires ms.Member?
    ensures RenderMembers(ms, false, d) ==
            Quoted(ms.name) + Ascii(":") + Render(ms.value, false, d) +
              Ascii(if ms.next.Member? then "," else "") + RenderMembers(ms.next, false, d)
  {
    WordsAre();
    assert Ascii("") == [];
    hide Quoted, Ascii, Render;
    var q, t, r := Quoted(ms.name), Render(ms.value, false, d), RenderMembers(ms.next, false, d);
    PlainMember(q, t, If(ms.next.Member?, [COMMA]), r);
  }

  lemma PlainMember(q: Text, t: Text, m: Text, r: Text)
    ensures ([] + q + [COLON] + []) + t + m + [] + r == q + [COLON] + t + m + r
  {
  }

  /** A member's line: a tab for each brace around it, the name, a colon and a tab, and the value. */
  lemma MemberLine(ms: Members, d: nat)
    requires ms.Member?
    ensures RenderMembers(ms, true, d) ==
            Indent(d) + Quoted(ms.name) + Ascii(":\t") + Render(ms.value, true, d) +
              Ascii(if ms.next.Member? then ",\n" else "\n") + RenderMembers(ms.next, true, d)
  {
    assert Ascii(":\t") == [COLON] + [TAB] && Ascii(",\n") == [COMMA] + [NEWLINE] && Ascii("\n") == [] + [NEWLINE];
    assert Indent(d) == Tabs(d);
    hide Quoted, Ascii, Render, Tabs, Indent;
    LineJoined(Tabs(d), Quoted(ms.name), Render(ms.value, true, d), If(ms.next.Member?, [COMMA]),
               RenderMembers(ms.next, true, d));
  }

  lemma LineJoined(tabs: Text, q: Text, t: Text, m: Text, r: Text)
    ensures (tabs + q + [COLON] + [TAB]) + t + m + [NEWLINE] + r ==
            tabs + q + ([COLON] + [TAB]) + t + (m + [NEWLINE]) + r
  {
  }

  function Indent(d: nat): Text { seq(d, _ => '\t' as int) }
}
