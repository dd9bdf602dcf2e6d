/** `repr()` of a string, and reading one back as a literal. */
module PythonRepr {
  import opened Prelude

  /** What Unicode says about characters beyond ASCII. Nothing here depends on the answers. */
  datatype Unicode = Unicode(printable: char -> bool, word: char -> bool, space: char -> bool) {

    predicate Printable(c: char) { if c < 128 as char then 32 as char <= c < 127 as char else printable(c) }

    /** `\w`. */
    predicate Word(c: char) {
      if c < 128 as char then 'a' <= c <= 'z' || 'A' <= c <= 'Z' || '0' <= c <= '9' || c == '_' else word(c)
    }

    /** `\s`. */
    predicate Space(c: char) {
      if c < 128 as char then 9 as char <= c <= 13 as char || 28 as char <= c <= 32 as char else space(c)
    }
  }

  const LOWER := "abcdefghijklmnopqrstuvwxyz"
  const UPPER := "ABCDEFGHIJKLMNOPQRSTUVWXYZ"
  const MARKS := "!\"#$%&'()*+,-./:;<=>?@[\\]^`{|}~"

  /** The classes of the ASCII characters, listed. Only spaces, ends of lines and the four separators are
      space, and of those only a space is printed as it is. */
  lemma LettersAreClassified(u: Unicode, k: nat)
    requires k < 26
    ensures u.Word(LOWER[k]) && u.Printable(LOWER[k]) && !u.Space(LOWER[k])
    ensures u.Word(UPPER[k]) && u.Printable(UPPER[k]) && !u.Space(UPPER[k])
  {
  }

  lemma DigitsAreClassified(u: Unicode, k: nat)
    requires k <= 10
    ensures u.Word("0123456789_"[k]) && u.Printable("0123456789_"[k]) && !u.Space("0123456789_"[k])
  {
  }

  lemma MarksAreClassified(u: Unicode, k: nat)
    requires k < 31
    ensures !u.Word(MARKS[k]) && u.Printable(MARKS[k]) && !u.Space(MARKS[k])
  {
  }

  lemma SpacesAreClassified(u: Unicode, c: char)
    requires c as int <= 32 || 127 <= c as int
    ensures c as int < 128 ==> !u.Word(c) && (u.Printable(c) <==> c == ' ')
    ensures c as int < 128 ==> (u.Space(c) <==> c as int in {9, 10, 11, 12, 13, 28, 29, 30, 31, 32})
    ensures c as int >= 128 ==> u.Word(c) == u.word(c) && u.Printable(c) == u.printable(c) && u.Space(c) == u.space(c)
  {
  }

  function HexDigit(d: nat): (c: char)
    requires d < 16
    ensures c != '\'' && c != '"' && c != '\\' && c != '\n'
  {
    if d < 10 then ('0' as int + d) as char else ('a' as int + d - 10) as char
  }

  function HexValue(c: char): Option<nat> {
    if '0' <= c <= '9' then Some(c as int - '0' as int)
    else if 'a' <= c <= 'f' then Some(c as int - 'a' as int + 10)
    else if 'A' <= c <= 'F' then Some(c as int - 'A' as int + 10)
    else None
  }

  /** A hex digit is read in either case, and nothing else is one. */
  lemma HexDigitsAreRead(c: char, d: nat)
    ensures HexValue(c) == Some(d) <==> d < 16 && (c == "0123456789abcdef"[d] || c == "0123456789ABCDEF"[d])
    ensures d < 16 ==> HexDigit(d) == "0123456789abcdef"[d]
  {
  }

  function Hex(n: nat, width: nat): (s: string)
    ensures |s| == width
    ensures forall i :: 0 <= i < |s| ==> s[i] != '\'' && s[i] != '"' && s[i] != '\\' && s[i] != '\n'
    decreases width, n
  {
    if width == 0 then "" else Hex(n / 16, width - 1) + [HexDigit(n % 16)]
  }

  function UnHex(s: string): Option<nat> {
    if s == "" then Some(0)
    else
      match (UnHex(s[..|s| - 1]), HexValue(s[|s| - 1]))
      case (Some(high), Some(low)) => Some(16 * high + low)
      case _ => None
  }

  function Pow16(width: nat): nat { if width == 0 then 1 else 16 * Pow16(width - 1) }

  lemma {:induction false} UnHexHex(n: nat, width: nat)
    requires n < Pow16(width)
    ensures UnHex(Hex(n, width)) == Some(n)
  {
    if width > 0 {
      assert n / 16 < Pow16(width - 1);
      UnHexHex(n / 16, width - 1);
      var s := Hex(n, width);
      assert s[..|s| - 1] == Hex(n / 16, width - 1);
    }
  }

  // ---- Printing -------------------------------------------------------------------------------

  function QuoteFor(s: string): (q: char)
    ensures q == '\'' || q == '"'
  {
    if '\'' in s && '"' !in s then '"' else '\''
  }

  /** Single quotes are preferred, and a quote in the text is escaped only if it has both kinds. */
  lemma QuotesAreChosen(s: string)
    ensures QuoteFor(s) in s <==> '\'' in s && '"' in s
    ensures QuoteFor(s) == '"' ==> '\'' in s
    ensures QuoteFor(s) in s ==> QuoteFor(s) == '\''
  {
  }

  function EscapeChar(u: Unicode, q: char, c: char): (s: string)
    ensures s != ""
  {
    if c == q || c == '\\' then ['\\', c]
    else if c == '\n' then "\\n"
    else if c == '\r' then "\\r"
    else if c == '\t' then "\\t"
    else if u.Printable(c) then [c]
    else if (c as int) < 0x100 then "\\x" + Hex(c as int, 2)
    else if (c as int) < 0x10000 then "\\u" + Hex(c as int, 4)
    else "\\U" + Hex(c as int, 8)
  }

  function EscapeWith(escape: char -> string, s: string): string {
    if s == "" then "" else escape(s[0]) + EscapeWith(escape, s[1..])
  }

  function Escaper(u: Unicode, q: char): char -> string { c => EscapeChar(u, q, c) }

  function Escape(u: Unicode, q: char, s: string): string { EscapeWith(Escaper(u, q), s) }

  function Repr(u: Unicode, s: string): (r: string)
    ensures |r| >= 2 && r[0] == r[|r| - 1] == QuoteFor(s)
  {
    [QuoteFor(s)] + Escape(u, QuoteFor(s), s) + [QuoteFor(s)]
  }

  // ---- Reading back ---------------------------------------------------------------------------

  /** The character written as `width` hex digits after a two-character escape. */
  function HexEscape(s: string, width: nat): Option<char> {
    if |s| < 2 + width then None
    else
      match UnHex(s[2..2 + width])
      case Some(n) => if n < 0xD800 || 0xE000 <= n < 0x11_0000 then Some(n as char) else None
      case None => None
  }

  /** One character of a string literal, and how much of `s` spells it. */
  function ReadChar(s: string): (r: Option<(char, nat)>)
    requires s != ""
    ensures r.Some? ==> 1 <= r.value.1 <= |s|
  {
    if s[0] == '\\' then
      if |s| < 2 then None
      else if s[1] == '\\' || s[1] == '\'' || s[1] == '"' then Some((s[1], 2))
      else if s[1] == 'n' then Some(('\n', 2))
      else if s[1] == 'r' then Some(('\r', 2))
      else if s[1] == 't' then Some(('\t', 2))
      else
        var width := if s[1] == 'x' then 2 else if s[1] == 'u' then 4 else if s[1] == 'U' then 8 else 0;
        if width == 0 then None
        else
          match HexEscape(s, width)
          case Some(c) => Some((c, 2 + width))
          case None => None
    else if s[0] == '\n' || s[0] == '\r' || s[0] == '\0' then None
    else Some((s[0], 1))
  }

  /** An escape `repr` never writes is not read. */
  lemma OtherEscapesAreNotRead(c: char, rest: string)
    requires c !in "\\'\"nrtxuU"
    ensures ReadChar(['\\', c] + rest) == None
  {
    var s := ['\\', c] + rest;
    assert s[1] == c && "\\'\"nrtxuU"[0] != c;
    assert c in "xuU" ==> c in "\\'\"nrtxuU";
  }

  /** The text between the quotes of a literal, as the string it denotes. */
  function Unescape(s: string): Option<string>
    decreases |s|
  {
    if s == "" then Some("")
    else
      match ReadChar(s)
      case None => None
      case Some((c, n)) =>
        match Unescape(s[n..])
        case None => None
        case Some(rest) => Some([c] + rest)
  }

  function StripQuotes(s: string): string {
    if s != "" && (s[0] == '\'' || s[0] == '"') then StripQuotes(s[1..])
    else if s != "" && (s[|s| - 1] == '\'' || s[|s| - 1] == '"') then StripQuotes(s[..|s| - 1])
    else s
  }

  predicate IsQuote(c: char) { c == '\'' || c == '"' }

  /** What is stripped is every quote at either end, and nothing but quotes. */
  lemma {:induction false} QuotesAreStripped(s: string) returns (left: string, right: string)
    ensures s == left + StripQuotes(s) + right
    ensures forall c :: c in left || c in right ==> IsQuote(c)
    ensures var t := StripQuotes(s); t == "" || (!IsQuote(t[0]) && !IsQuote(t[|t| - 1]))
  {
    left, right := "", "";
    if s != "" && IsQuote(s[0]) {
      left, right := QuotesAreStripped(s[1..]);
      left := [s[0]] + left;
    } else if s != "" && IsQuote(s[|s| - 1]) {
      left, right := QuotesAreStripped(s[..|s| - 1]);
      right := right + [s[|s| - 1]];
    }
  }

  /** A quoted literal's value, or its bare text when it is not one. */
  function Literal(quoted: string): string
    requires |quoted| >= 2
  {
    Unescape(quoted[1..|quoted| - 1]).GetOr(StripQuotes(quoted))
  }

  // ---- One undoes the other ---------------------------------------------------------------------

  lemma HexEscapeReads(prefix: string, n: nat, width: nat, rest: string)
    requires |prefix| == 2 && n < Pow16(width) && (n < 0xD800 || 0xE000 <= n < 0x11_0000)
    ensures HexEscape(prefix + Hex(n, width) + rest, width) == Some(n as char)
  {
    assert (prefix + Hex(n, width) + rest)[2..2 + width] == Hex(n, width);
    UnHexHex(n, width);
  }

  lemma CharRoundTrip(u: Unicode, q: char, c: char, rest: string)
    requires q == '\'' || q == '"'
    ensures ReadChar(EscapeChar(u, q, c) + rest) == Some((c, |EscapeChar(u, q, c)|))
  {
    var s := EscapeChar(u, q, c) + rest;
    var n := c as int;
    assert Pow16(1) == 16 && Pow16(2) == 0x100 && Pow16(3) == 0x1000 && Pow16(4) == 0x1_0000;
    assert Pow16(5) == 0x10_0000 && Pow16(6) == 0x100_0000 && Pow16(7) == 0x1000_0000 && Pow16(8) == 0x1_0000_0000;
    if c == q || c == '\\' || c == '\n' || c == '\r' || c == '\t' || u.Printable(c) {
    } else if n < 0x100 {
      HexEscapeReads("\\x", n, 2, rest);
      assert s == "\\x" + Hex(n, 2) + rest;
    } else if n < 0x10000 {
      HexEscapeReads("\\u", n, 4, rest);
      assert s == "\\u" + Hex(n, 4) + rest;
    } else {
      HexEscapeReads("\\U", n, 8, rest);
      assert s == "\\U" + Hex(n, 8) + rest;
    }
  }

  lemma {:induction false} EscapeRoundTrip(u: Unicode, q: char, s: string)
    requires q == '\'' || q == '"'
    ensures Unescape(Escape(u, q, s)) == Some(s)
  {
    if s != "" {
      CharRoundTrip(u, q, s[0], Escape(u, q, s[1..]));
      EscapeRoundTrip(u, q, s[1..]);
      assert Escape(u, q, s)[|EscapeChar(u, q, s[0])|..] == Escape(u, q, s[1..]);
      assert [s[0]] + s[1..] == s;
    }
  }

  /** Reading back what was printed gives the string, whatever is in it. */
  lemma ReprRoundTrip(u: Unicode, s: string)
    ensures Literal(Repr(u, s)) == s
  {
    var r := Repr(u, s);
    assert r[1..|r| - 1] == Escape(u, QuoteFor(s), s);
    EscapeRoundTrip(u, QuoteFor(s), s);
  }

  // ---- Where a literal ends -----------------------------------------------------------------------

  /** What the regex for the inside of a literal quoted by `q` makes of the next character:
      nothing, the closing quote, or one or two characters to pass. `dotAll` is whether a
      backslash may be followed by a newline. */
  datatype Scan = Stuck | Closed | Pass(count: nat)

  function ScanChar(s: string, q: char, dotAll: bool): (r: Scan)
    requires s != ""
    ensures r.Pass? ==> 1 <= r.count <= |s|
    ensures r.Closed? ==> s[0] == q
  {
    if s[0] == q then Closed
    else if s[0] != '\\' then Pass(1)
    else if |s| >= 2 && (dotAll || s[1] != '\n') then Pass(2)
    else Stuck
  }

  /** How much of `s` that regex takes, closing quote included. */
  function QuotedLength(s: string, q: char, dotAll: bool): (r: Option<nat>)
    ensures r.Some? ==> 1 <= r.value <= |s|
    decreases |s|
  {
    if s == "" then None
    else
      match ScanChar(s, q, dotAll)
      case Stuck => None
      case Closed => Some(1)
      case Pass(n) => Longer(QuotedLength(s[n..], q, dotAll), n)
  }

  function Longer(r: Option<nat>, n: nat): Option<nat> {
    if r.Some? then Some(r.value + n) else None
  }

  /** How much of `s` the regex for a quoted literal takes. */
  function LiteralLength(s: string, dotAll: bool): (r: Option<nat>)
    ensures r.Some? ==> 2 <= r.value <= |s|
  {
    if s != "" && (s[0] == '\'' || s[0] == '"') then Longer(QuotedLength(s[1..], s[0], dotAll), 1) else None
  }

  lemma {:induction false} QuotedEndsInQuote(s: string, q: char, dotAll: bool)
    requires QuotedLength(s, q, dotAll).Some?
    ensures s[QuotedLength(s, q, dotAll).value - 1] == q
    decreases |s|
  {
    match ScanChar(s, q, dotAll)
    case Closed =>
    case Pass(n) => QuotedEndsInQuote(s[n..], q, dotAll);
  }

  lemma {:induction false} PlainCharsArePassed(s: string, rest: string, q: char, dotAll: bool)
    requires forall i :: 0 <= i < |s| ==> s[i] != q && s[i] != '\\'
    ensures QuotedLength(s + rest, q, dotAll) == Longer(QuotedLength(rest, q, dotAll), |s|)
  {
    if s == "" {
      assert s + rest == rest;
    } else {
      assert (s + rest)[1..] == s[1..] + rest;
      PlainCharsArePassed(s[1..], rest, q, dotAll);
    }
  }

  /** A plain character, or a backslash and more that holds no further quote or backslash. */
  ghost predicate IsToken(e: string, q: char) {
    || (|e| == 1 && e[0] != q && e[0] != '\\')
    || (|e| >= 2 && e[0] == '\\' && e[1] != '\n' && forall i :: 2 <= i < |e| ==> e[i] != q && e[i] != '\\')
  }

  lemma EscapedCharIsToken(u: Unicode, q: char, c: char)
    requires q == '\'' || q == '"'
    ensures IsToken(EscapeChar(u, q, c), q)
  {
  }

  lemma TokenIsPassed(e: string, rest: string, q: char, dotAll: bool)
    requires IsToken(e, q) && q != '\\'
    ensures QuotedLength(e + rest, q, dotAll) == Longer(QuotedLength(rest, q, dotAll), |e|)
  {
    if |e| == 1 {
      PlainCharsArePassed(e, rest, q, dotAll);
    } else {
      assert (e + rest)[2..] == e[2..] + rest;
      PlainCharsArePassed(e[2..], rest, q, dotAll);
    }
  }

  lemma BothPassed(a: string, b: string, rest: string, q: char, dotAll: bool)
    requires QuotedLength(a + (b + rest), q, dotAll) == Longer(QuotedLength(b + rest, q, dotAll), |a|)
    requires QuotedLength(b + rest, q, dotAll) == Longer(QuotedLength(rest, q, dotAll), |b|)
    ensures QuotedLength(a + b + rest, q, dotAll) == Longer(QuotedLength(rest, q, dotAll), |a + b|)
  {
    Associative(a, b, rest);
  }

  ghost predicate AllTokens(escape: char -> string, q: char) { forall c :: IsToken(escape(c), q) }

  lemma {:induction false} TokensArePassed(escape: char -> string, q: char, s: string, rest: string, dotAll: bool)
    requires AllTokens(escape, q) && q != '\\'
    ensures QuotedLength(EscapeWith(escape, s) + rest, q, dotAll)
         == Longer(QuotedLength(rest, q, dotAll), |EscapeWith(escape, s)|)
  {
    if s == "" {
      assert EscapeWith(escape, s) + rest == rest;
    } else {
      TokenIsPassed(escape(s[0]), EscapeWith(escape, s[1..]) + rest, q, dotAll);
      TokensArePassed(escape, q, s[1..], rest, dotAll);
      BothPassed(escape(s[0]), EscapeWith(escape, s[1..]), rest, q, dotAll);
    }
  }

  lemma EscapeIsPassed(u: Unicode, q: char, s: string, rest: string, dotAll: bool)
    requires q == '\'' || q == '"'
    ensures QuotedLength(Escape(u, q, s) + rest, q, dotAll) == Longer(QuotedLength(rest, q, dotAll), |Escape(u, q, s)|)
  {
    forall c ensures IsToken(Escaper(u, q)(c), q) { EscapedCharIsToken(u, q, c); }
    TokensArePassed(Escaper(u, q), q, s, rest, dotAll);
  }

  lemma ReprSplits(u: Unicode, s: string, rest: string)
    ensures (Repr(u, s) + rest)[0] == QuoteFor(s)
    ensures (Repr(u, s) + rest)[1..] == Escape(u, QuoteFor(s), s) + ([QuoteFor(s)] + rest)
  {
  }

  lemma QuoteCloses(q: char, rest: string, dotAll: bool)
    ensures QuotedLength([q] + rest, q, dotAll) == Some(1)
  {
    assert ([q] + rest)[0] == q;
  }

  /** The literal regex takes exactly what `repr()` printed. */
  lemma ReprIsOneLiteral(u: Unicode, s: string, rest: string, dotAll: bool)
    ensures LiteralLength(Repr(u, s) + rest, dotAll) == Some(|Repr(u, s)|)
  {
    ReprSplits(u, s, rest);
    EscapeIsPassed(u, QuoteFor(s), s, [QuoteFor(s)] + rest, dotAll);
    QuoteCloses(QuoteFor(s), rest, dotAll);
  }

  /** A quote that no backslash precedes ends the literal, if nothing before it did. */
  lemma {:induction false} QuoteStops(a: string, b: string, q: char, dotAll: bool)
    requires q != '\\'
    requires a == "" || a[|a| - 1] != '\\'
    ensures QuotedLength(a + [q] + b, q, dotAll).Some? ==> QuotedLength(a + [q] + b, q, dotAll).value <= |a| + 1
    decreases |a|
  {
    var s := a + [q] + b;
    if a != "" && a[0] != q {
      if a[0] == '\\' {
        assert |a| >= 2;
        assert s[2..] == a[2..] + [q] + b;
        QuoteStops(a[2..], b, q, dotAll);
      } else {
        assert s[1..] == a[1..] + [q] + b;
        QuoteStops(a[1..], b, q, dotAll);
      }
    }
  }
}
