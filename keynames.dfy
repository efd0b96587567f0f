/** The key-naming scheme: how an attribute name of a persistent object
    becomes a key of the flat store. An attribute of the object with key `k`
    lives under `k + "_" + repr(name)`, where repr is Python 2's `repr` of an
    `int` or a byte `str`. Decode is the inverse of that rendering; it plays
    the part of the `eval` that the enumeration applies to key suffixes. */
module KeyNames {
  import opened Results
  import opened KeyOrder

  /** A Python 2 `str`: every character is one byte. */
  type ByteString = s: string | forall i | 0 <= i < |s| :: s[i] as int < 256

  /** A name as Python 2 can spell it: an `int` (item syntax, `root[333]`),
      a `long` (`root[5L]`, or any integer outside the machine range) or a
      `str`. An `int` and a `long` of equal value are different names here,
      because their reprs, and so their keys, differ. */
  datatype Name = IntName(i: int) | LongName(i: int) | StrName(s: ByteString)

  /** An attribute name: an `int` always lies in the machine range. */
  type AttrName = a: Name | a.IntName? ==> IsMachineInt(a.i) witness StrName([])

  /** `str(attr).startswith('_')`: such names live in memory only. No integer
      renders with a leading underscore. */
  predicate IsPrivate(a: AttrName) {
    a.StrName? && |a.s| > 0 && a.s[0] == '_'
  }

  /** The separator between an owner key and an attribute suffix. */
  const Sep: char := '_'

  // ---------------------------------------------------------------- integers

  /** Python 2 `int` on a 64-bit build; values outside are `long`. */
  const MinMachineInt: int := -0x8000_0000_0000_0000
  const MaxMachineInt: int := 0x7fff_ffff_ffff_ffff

  predicate IsMachineInt(i: int) {
    MinMachineInt <= i <= MaxMachineInt
  }

  predicate IsDigit(c: char) {
    48 <= c as int <= 57
  }

  function DigitChar(d: nat): (c: char)
    requires d < 10
    ensures IsDigit(c)
  {
    (48 + d) as char
  }

  /** Decimal digits without leading zeros. */
  predicate CanonicalDigits(s: string) {
    |s| > 0 && (forall i | 0 <= i < |s| :: IsDigit(s[i])) && (s[0] == '0' ==> |s| == 1)
  }

  function Digits(n: nat): (s: string)
    decreases n
  {
    if n < 10 then [DigitChar(n)] else Digits(n / 10) + [DigitChar(n % 10)]
  }

  function DigitsValue(s: string): (n: nat)
    requires forall i | 0 <= i < |s| :: IsDigit(s[i])
    decreases |s|
  {
    if |s| == 0 then 0
    else
      assert IsDigit(s[|s| - 1]);
      10 * DigitsValue(s[..|s| - 1]) + (s[|s| - 1] as int - 48)
  }

  lemma {:induction false} DigitsValuePositive(s: string)
    requires CanonicalDigits(s) && s[0] != '0'
    ensures DigitsValue(s) > 0
    decreases |s|
  {
    if |s| > 1 {
      DigitsValuePositive(s[..|s| - 1]);
    }
  }

  /** Rendering a natural number and reading it back gives the number. */
  lemma {:induction false} DigitsRoundTrip(n: nat)
    ensures CanonicalDigits(Digits(n)) && DigitsValue(Digits(n)) == n
    decreases n
  {
    if n >= 10 {
      DigitsRoundTrip(n / 10);
      var d := Digits(n / 10);
      assert (d + [DigitChar(n % 10)])[..|d|] == d;
    }
  }

  /** Canonical digit strings are exactly the renderings of their values. */
  lemma {:induction false} DigitsCanonical(s: string)
    requires CanonicalDigits(s)
    ensures Digits(DigitsValue(s)) == s
    decreases |s|
  {
    if |s| > 1 {
      var init := s[..|s| - 1];
      assert CanonicalDigits(init);
      DigitsValuePositive(init);
      DigitsCanonical(init);
      var n := DigitsValue(s);
      assert n / 10 == DigitsValue(init) && n % 10 == s[|s| - 1] as int - 48;
      assert s == init + [s[|s| - 1]];
    }
  }

  /** `%ld` formatting of an integer. */
  function IntText(i: int): (t: string) {
    if i < 0 then "-" + Digits(-i) else Digits(i)
  }

  function ParseInt(t: string): (r: Option<int>) {
    if |t| > 0 && t[0] == '-' then
      if CanonicalDigits(t[1..]) && DigitsValue(t[1..]) > 0 then Some(0 - DigitsValue(t[1..])) else None
    else if CanonicalDigits(t) then Some(DigitsValue(t))
    else None
  }

  lemma ParseIntText(i: int)
    ensures ParseInt(IntText(i)) == Some(i)
    ensures |IntText(i)| > 0 && (IntText(i)[0] == '-' || IsDigit(IntText(i)[0]))
    ensures IsDigit(IntText(i)[|IntText(i)| - 1])
  {
    if i < 0 {
      DigitsRoundTrip(-i);
      assert IntText(i)[1..] == Digits(-i);
    } else {
      DigitsRoundTrip(i);
    }
  }

  lemma IntTextParse(t: string, i: int)
    requires ParseInt(t) == Some(i)
    ensures IntText(i) == t
  {
    if |t| > 0 && t[0] == '-' {
      DigitsCanonical(t[1..]);
      assert t == "-" + t[1..];
    } else {
      DigitsCanonical(t);
    }
  }

  // ----------------------------------------------------------------- strings

  predicate IsQuote(q: char) {
    q == '\'' || q == '"'
  }

  /** repr prefers single quotes and switches to double quotes only when the
      string holds a single quote and no double quote. */
  function QuoteFor(s: string): (q: char)
    ensures IsQuote(q)
  {
    if Occurs('\'', s) && !Occurs('"', s) then '"' else '\''
  }

  /** `c in s`, spelled out byte by byte. */
  predicate Occurs(c: char, s: string)
    decreases |s|
  {
    s != [] && (s[0] == c || Occurs(c, s[1..]))
  }

  lemma {:induction false} OccursIn(c: char, s: string)
    ensures Occurs(c, s) <==> c in s
    decreases |s|
  {
    if s != [] {
      OccursIn(c, s[1..]);
      assert s == [s[0]] + s[1..];
    }
  }

  predicate IsHexDigit(c: char) {
    48 <= c as int <= 57 || 97 <= c as int <= 102
  }

  function HexDigit(d: nat): (c: char)
    requires d < 16
    ensures IsHexDigit(c)
  {
    if d < 10 then (48 + d) as char else (87 + d) as char
  }

  function HexValue(c: char): (d: nat)
    requires IsHexDigit(c)
    ensures d < 16 && HexDigit(d) == c
  {
    if c as int <= 57 then c as int - 48 else c as int - 87
  }

  /** Bytes that repr writes as `\xhh`: control bytes other than tab,
      newline and carriage return, and every byte from 0x7f up. */
  predicate NeedsHex(v: int) {
    (v < 32 && v != 9 && v != 10 && v != 13) || 127 <= v
  }

  /** Bytes that repr copies unchanged inside quote `q`. */
  predicate IsPlain(c: char, q: char) {
    32 <= c as int < 127 && c != q && c != '\\'
  }

  /** repr of one byte inside quote `q`. */
  function EscapeChar(c: char, q: char): (e: string)
    requires c as int < 256
  {
    if c == q || c == '\\' then ['\\', c]
    else if c == '\t' then "\\t"
    else if c == '\n' then "\\n"
    else if c == '\r' then "\\r"
    else if NeedsHex(c as int) then ['\\', 'x', HexDigit(c as int / 16), HexDigit(c as int % 16)]
    else [c]
  }

  function Escape(s: ByteString, q: char): (t: string)
    decreases |s|
  {
    if s == [] then [] else EscapeChar(s[0], q) + Escape(s[1..], q)
  }

  function Cons(c: char, rest: Option<string>): (r: Option<string>) {
    match rest
    case None => None
    case Some(s) => Some([c] + s)
  }

  /** Reads the body of a quoted repr back into the bytes it stands for;
      None unless the body is exactly what repr writes for some string. */
  function Unescape(t: string, q: char): (r: Option<string>)
    requires IsQuote(q)
    ensures r.Some? ==> forall i | 0 <= i < |r.value| :: r.value[i] as int < 256
    decreases |t|
  {
    if t == [] then Some([])
    else if t[0] == '\\' then
      if |t| < 2 then None
      else if t[1] == q || t[1] == '\\' then Cons(t[1], Unescape(t[2..], q))
      else if t[1] == 't' then Cons('\t', Unescape(t[2..], q))
      else if t[1] == 'n' then Cons('\n', Unescape(t[2..], q))
      else if t[1] == 'r' then Cons('\r', Unescape(t[2..], q))
      else if t[1] == 'x' && |t| >= 4 && IsHexDigit(t[2]) && IsHexDigit(t[3])
              && NeedsHex(16 * HexValue(t[2]) + HexValue(t[3])) then
        Cons((16 * HexValue(t[2]) + HexValue(t[3])) as char, Unescape(t[4..], q))
      else None
    else if IsPlain(t[0], q) then Cons(t[0], Unescape(t[1..], q))
    else None
  }

  lemma UnescapeChar(c: char, q: char, rest: string)
    requires IsQuote(q) && c as int < 256
    ensures Unescape(EscapeChar(c, q) + rest, q) == Cons(c, Unescape(rest, q))
  {
    var e := EscapeChar(c, q);
    if |e| == 4 {
      UnescapeHexChar(c, q, rest);
    } else if |e| == 2 {
      var t := e + rest;
      assert t[2..] == rest;
    } else {
      var t := e + rest;
      assert t[1..] == rest;
    }
  }

  lemma UnescapeHexChar(c: char, q: char, rest: string)
    requires IsQuote(q) && c as int < 256 && |EscapeChar(c, q)| == 4
    ensures Unescape(EscapeChar(c, q) + rest, q) == Cons(c, Unescape(rest, q))
  {
    var v := c as int;
    var t := EscapeChar(c, q) + rest;
    assert 16 * (v / 16) + v % 16 == v;
    assert t[4..] == rest;
  }

  /** Unescaping what Escape wrote gives the original bytes back. */
  lemma {:induction false} UnescapeEscape(s: ByteString, q: char)
    requires IsQuote(q)
    ensures Unescape(Escape(s, q), q) == Some(s)
    decreases |s|
  {
    if s != [] {
      UnescapeEscape(s[1..], q);
      UnescapeChar(s[0], q, Escape(s[1..], q));
      assert s == [s[0]] + s[1..];
    }
  }

  /** How many characters of `t` Unescape reads for the first byte. */
  function HeadLength(t: string): (n: nat)
    requires |t| > 0
  {
    if t[0] != '\\' then 1 else if |t| >= 2 && t[1] == 'x' then 4 else 2
  }

  lemma UnescapeHead(t: string, q: char, s: string)
    requires IsQuote(q) && t != [] && Unescape(t, q) == Some(s)
    ensures HeadLength(t) <= |t| && s != []
    ensures s[0] as int < 256 && EscapeChar(s[0], q) == t[..HeadLength(t)]
    ensures Unescape(t[HeadLength(t)..], q) == Some(s[1..])
  {
    if t[0] != '\\' {
      UnescapeHeadPlain(t, q, s);
    } else if t[1] == 'x' {
      UnescapeHeadHex(t, q, s);
    } else {
      UnescapeHeadPair(t, q, s);
    }
  }

  lemma UnescapeHeadPlain(t: string, q: char, s: string)
    requires IsQuote(q) && t != [] && t[0] != '\\' && Unescape(t, q) == Some(s)
    ensures 1 <= |t| && s != []
    ensures s[0] as int < 256 && EscapeChar(s[0], q) == t[..1]
    ensures Unescape(t[1..], q) == Some(s[1..])
  {
    assert IsPlain(t[0], q);
    assert t[..1] == [t[0]];
  }

  lemma UnescapeHeadPair(t: string, q: char, s: string)
    requires IsQuote(q) && |t| >= 2 && t[0] == '\\' && t[1] != 'x' && Unescape(t, q) == Some(s)
    ensures s != []
    ensures s[0] as int < 256 && EscapeChar(s[0], q) == t[..2]
    ensures Unescape(t[2..], q) == Some(s[1..])
  {
    assert t[..2] == ['\\', t[1]];
  }

  lemma UnescapeHeadHex(t: string, q: char, s: string)
    requires IsQuote(q) && |t| >= 2 && t[0] == '\\' && t[1] == 'x' && Unescape(t, q) == Some(s)
    ensures 4 <= |t| && s != []
    ensures s[0] as int < 256 && EscapeChar(s[0], q) == t[..4]
    ensures Unescape(t[4..], q) == Some(s[1..])
  {
    assert t[1] != q && t[1] != '\\';
    var v := 16 * HexValue(t[2]) + HexValue(t[3]);
    assert v / 16 == HexValue(t[2]) && v % 16 == HexValue(t[3]);
    assert s[0] == v as char;
    assert t[..4] == ['\\', 'x', t[2], t[3]];
  }

  /** Whatever Unescape accepts is exactly what Escape writes. */
  lemma {:induction false} EscapeUnescape(t: string, q: char, s: ByteString)
    requires IsQuote(q) && Unescape(t, q) == Some(s)
    ensures Escape(s, q) == t
    decreases |t|
  {
    if t != [] {
      var n := HeadLength(t);
      UnescapeHead(t, q, s);
      EscapeUnescape(t[n..], q, s[1..]);
      EscapeSplit(s, q, t, n);
    }
  }

  lemma EscapeSplit(s: ByteString, q: char, t: string, n: nat)
    requires s != [] && n <= |t|
    requires EscapeChar(s[0], q) == t[..n] && Escape(s[1..], q) == t[n..]
    ensures Escape(s, q) == t
  {
    assert t == t[..n] + t[n..];
  }

  // ----------------------------------------------------------- repr and eval

  /** `repr(attr)` for an `int`, a `long` (suffix `L`) or a byte `str`. */
  function Encode(a: AttrName): (r: string) {
    match a
    case IntName(i) => IntText(i)
    case LongName(i) => IntText(i) + "L"
    case StrName(s) => [QuoteFor(s)] + Escape(s, QuoteFor(s)) + [QuoteFor(s)]
  }

  /** A string of plain bytes is its own escaped form. */
  lemma {:induction false} EscapePlainText(s: ByteString, q: char)
    requires forall i | 0 <= i < |s| :: IsPlain(s[i], q)
    ensures Escape(s, q) == s
    decreases |s|
  {
    if s != [] {
      assert IsPlain(s[0], q);
      EscapePlainText(s[1..], q);
    }
  }

  /** The repr of a string of plain bytes without quotes is the string in
      single quotes. */
  lemma EncodePlainName(s: ByteString)
    requires forall i | 0 <= i < |s| :: IsPlain(s[i], '\'') && s[i] != '"'
    ensures Encode(StrName(s)) == "'" + s + "'"
  {
    OccursIn('\'', s);
    EscapePlainText(s, '\'');
  }

  /** Reads a repr back into the attribute name; None for any text that is
      not the repr of an `int`, a `long` or a byte `str`. */
  function Decode(t: string): (r: Option<AttrName>) {
    if |t| >= 2 && IsQuote(t[0]) && t[|t| - 1] == t[0] then
      match Unescape(t[1..|t| - 1], t[0])
      case Some(s) => if QuoteFor(s) == t[0] then Some(StrName(s)) else None
      case None => None
    else if |t| > 0 && t[|t| - 1] == 'L' then
      match ParseInt(t[..|t| - 1])
      case Some(i) => Some(LongName(i))
      case None => None
    else
      match ParseInt(t)
      case Some(i) => if IsMachineInt(i) then Some(IntName(i)) else None
      case None => None
  }

  /** Every attribute name survives the trip through its repr. */
  lemma DecodeEncode(a: AttrName)
    ensures Decode(Encode(a)) == Some(a)
  {
    match a
    case IntName(i) =>
      ParseIntText(i);
    case LongName(i) =>
      ParseIntText(i);
      var t := Encode(a);
      assert t[0] == IntText(i)[0];
      assert t[..|t| - 1] == IntText(i);
    case StrName(s) =>
      var q := QuoteFor(s);
      var t := Encode(a);
      assert t[1..|t| - 1] == Escape(s, q);
      UnescapeEscape(s, q);
  }

  /** Decode accepts only canonical reprs: a decoded text is the repr of
      what it decodes to. */
  lemma EncodeDecode(t: string, a: AttrName)
    requires Decode(t) == Some(a)
    ensures Encode(a) == t
  {
    if |t| >= 2 && IsQuote(t[0]) && t[|t| - 1] == t[0] {
      EncodeDecodeQuoted(t, a);
    } else if |t| > 0 && t[|t| - 1] == 'L' {
      EncodeDecodeLong(t, a);
    } else {
      IntTextParse(t, a.i);
    }
  }

  lemma EncodeDecodeQuoted(t: string, a: AttrName)
    requires |t| >= 2 && IsQuote(t[0]) && t[|t| - 1] == t[0]
    requires Decode(t) == Some(a)
    ensures Encode(a) == t
  {
    var q, body := t[0], t[1..|t| - 1];
    assert a.StrName? && Unescape(body, q) == Some(a.s) && QuoteFor(a.s) == q;
    EscapeUnescape(body, q, a.s);
    QuotedText(t);
  }

  lemma QuotedText(t: string)
    requires |t| >= 2
    ensures t == [t[0]] + t[1..|t| - 1] + [t[|t| - 1]]
  {
  }

  lemma EncodeDecodeLong(t: string, a: AttrName)
    requires !(|t| >= 2 && IsQuote(t[0]) && t[|t| - 1] == t[0])
    requires |t| > 0 && t[|t| - 1] == 'L'
    requires Decode(t) == Some(a)
    ensures Encode(a) == t
  {
    IntTextParse(t[..|t| - 1], a.i);
    assert t == t[..|t| - 1] + "L";
  }

  /** `_attr_key`: the store key of attribute `a` of the object keyed `owner`. */
  function AttrKey(owner: string, a: AttrName): (k: string) {
    owner + [Sep] + Encode(a)
  }

  /** An attribute key lies in its owner's block and its suffix is the repr
      of the name. */
  lemma AttrKeyShape(owner: string, a: AttrName)
    ensures StartsWith(AttrKey(owner, a), owner + [Sep])
    ensures AttrKey(owner, a)[|owner| + 1..] == Encode(a)
    ensures Less(owner, AttrKey(owner, a))
  {
    JoinBlock(owner, Encode(a));
  }

  /** The key that joins `owner` and a suffix with the separator. */
  lemma JoinBlock(owner: string, e: string)
    ensures StartsWith(owner + [Sep] + e, owner + [Sep])
    ensures (owner + [Sep] + e)[|owner| + 1..] == e
    ensures Less(owner, owner + [Sep] + e)
  {
    var k := owner + [Sep] + e;
    assert k[..|owner| + 1] == owner + [Sep];
    assert k[..|owner|] == owner;
    PrefixLess(owner, k);
  }

  /** A key in the block of `owner` is `owner`, the separator and its suffix. */
  lemma SplitBlock(owner: string, s: string)
    requires StartsWith(s, owner + [Sep])
    ensures s == owner + [Sep] + s[|owner| + 1..]
  {
    assert s == s[..|owner| + 1] + s[|owner| + 1..];
  }

  /** Distinct names of one owner have distinct keys. */
  lemma AttrKeyInjective(owner: string, a: AttrName, b: AttrName)
    requires AttrKey(owner, a) == AttrKey(owner, b)
    ensures a == b
  {
    AttrKeyShape(owner, a);
    AttrKeyShape(owner, b);
    DecodeEncode(a);
    DecodeEncode(b);
  }

  lemma AttrKeysDistinct(owner: string, a: AttrName, b: AttrName)
    requires a != b
    ensures AttrKey(owner, a) != AttrKey(owner, b)
  {
    if AttrKey(owner, a) == AttrKey(owner, b) {
      AttrKeyInjective(owner, a, b);
    }
  }

  // ------------------------------------------------------------ object keys

  /** The shape of `str(uuid.uuid4())`: 36 characters, lower-case hex digits
      in groups of 8-4-4-4-12 separated by dashes. */
  predicate UuidLike(u: string) {
    |u| == 36 &&
    forall i | 0 <= i < 36 ::
      if i == 8 || i == 13 || i == 18 || i == 23 then u[i] == '-' else IsHexDigit(u[i])
  }

  /** A generated key is never an attribute key: it has no separator. */
  lemma GeneratedKeyIsNoAttrKey(u: string, owner: string, a: AttrName)
    requires UuidLike(u)
    ensures u != AttrKey(owner, a)
  {
    var k := AttrKey(owner, a);
    assert k[|owner|] == Sep;
    if |owner| < |u| {
      assert u[|owner|] != Sep;
    }
  }
}
