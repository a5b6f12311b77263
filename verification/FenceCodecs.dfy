/** The encodings of `hugit-fence/src/util.rs` that carry bytes and paths over a shell: base64 and
    POSIX single quoting, each against the standard that reads it back. */
module FenceCodecs {
  import opened Common

  /** The 64 symbols in order: A to Z, a to z, 0 to 9, plus, slash. */
  function Symbol(n: int): char
    requires 0 <= n < 64
  {
    if n < 26 then (n + 65) as char
    else if n < 52 then (n + 71) as char
    else if n < 62 then (n - 4) as char
    else if n == 62 then '+' else '/'
  }

  /** The value of a symbol in table 1 of RFC 4648, by ranges. */
  function Sextet(c: char): Option<int> {
    if 'A' <= c <= 'Z' then Some(c as int - 65)
    else if 'a' <= c <= 'z' then Some(c as int - 71)
    else if '0' <= c <= '9' then Some(c as int + 4)
    else if c == '+' then Some(62)
    else if c == '/' then Some(63)
    else None
  }

  lemma SextetOfSymbol(n: int)
    requires 0 <= n < 64
    ensures Sextet(Symbol(n)) == Some(n) && Symbol(n) != '='
  {
  }

  lemma SymbolOfSextet(c: char)
    requires Sextet(c).Some?
    ensures 0 <= Sextet(c).value < 64 && Symbol(Sextet(c).value) == c
  {
    SextetOfSymbol(Sextet(c).value);
  }

  /** The four sextets of three bytes. Shifts of a byte are products; the bits they combine do not
      overlap. */
  function Sextets(b0: int, b1: int, b2: int): (int, int, int, int) {
    var n := b0 * 65536 + b1 * 256 + b2;
    (n / 262144 % 64, n / 4096 % 64, n / 64 % 64, n % 64)
  }

  lemma SextetsByBits(b0: int, b1: int, b2: int)
    requires 0 <= b0 < 256 && 0 <= b1 < 256 && 0 <= b2 < 256
    ensures Sextets(b0, b1, b2) == (b0 / 4, b0 % 4 * 16 + b1 / 16, b1 % 16 * 4 + b2 / 64, b2 % 64)
  {
    LowBits(b0, b1, b2);
    MiddleBits(b0, b1, b2);
    HighBits(b0, b1, b2);
  }

  lemma Multiple(d: int, k: int)
    requires d > 0
    ensures k >= 1 ==> d * k >= d
    ensures k <= -1 ==> d * k <= -d
  {
  }

  lemma DivMod(n: int, d: int, q: int, r: int)
    requires d > 0 && n == d * q + r && 0 <= r < d
    ensures n / d == q && n % d == r
  {
    assert d * q - d * (n / d) == d * (q - n / d);
    Multiple(d, q - n / d);
  }

  lemma LowBits(b0: int, b1: int, b2: int)
    requires 0 <= b0 < 256 && 0 <= b1 < 256 && 0 <= b2 < 256
    ensures (b0 * 65536 + b1 * 256 + b2) % 64 == b2 % 64
    ensures (b0 * 65536 + b1 * 256 + b2) / 64 % 64 == b1 % 16 * 4 + b2 / 64
  {
    var q := b0 * 1024 + b1 * 4 + b2 / 64;
    DivMod(b0 * 65536 + b1 * 256 + b2, 64, q, b2 % 64);
    DivMod(q, 64, b0 * 16 + b1 / 16, b1 % 16 * 4 + b2 / 64);
  }

  lemma MiddleBits(b0: int, b1: int, b2: int)
    requires 0 <= b0 < 256 && 0 <= b1 < 256 && 0 <= b2 < 256
    ensures (b0 * 65536 + b1 * 256 + b2) / 4096 % 64 == b0 % 4 * 16 + b1 / 16
  {
    DivMod(b0 * 65536 + b1 * 256 + b2, 4096, b0 * 16 + b1 / 16, b1 % 16 * 256 + b2);
    DivMod(b0 * 16 + b1 / 16, 64, b0 / 4, b0 % 4 * 16 + b1 / 16);
  }

  lemma HighBits(b0: int, b1: int, b2: int)
    requires 0 <= b0 < 256 && 0 <= b1 < 256 && 0 <= b2 < 256
    ensures (b0 * 65536 + b1 * 256 + b2) / 262144 % 64 == b0 / 4
  {
    DivMod(b0 * 65536 + b1 * 256 + b2, 262144, b0 / 4, b0 % 4 * 65536 + b1 * 256 + b2);
  }

  /** One group of four symbols for a chunk of one to three bytes. */
  function EncodeChunk(chunk: Bytes): string
    requires 1 <= |chunk| <= 3
  {
    var s := Sextets(chunk[0], if |chunk| > 1 then chunk[1] else 0, if |chunk| > 2 then chunk[2] else 0);
    [Symbol(s.0), Symbol(s.1), if |chunk| > 1 then Symbol(s.2) else '=', if |chunk| > 2 then Symbol(s.3) else '=']
  }

  function Encode(bytes: Bytes): string {
    if bytes == [] then ""
    else
      var n := if |bytes| < 3 then |bytes| else 3;
      EncodeChunk(bytes[..n]) + Encode(bytes[n..])
  }

  method Base64Encode(bytes: Bytes) returns (out: string)
    ensures out == Encode(bytes)
  {
    out := "";
    var i := 0;
    while i < |bytes|
      invariant 0 <= i <= |bytes|
      invariant Encode(bytes) == out + Encode(bytes[i..])
    {
      var n := if |bytes| - i < 3 then |bytes| - i else 3;
      assert bytes[i..][..n] == bytes[i..i + n] && bytes[i..][n..] == bytes[i + n..];
      out := out + EncodeChunk(bytes[i..i + n]);
      i := i + n;
    }
    assert bytes[i..] == [];
  }

  /** One group of four symbols (section 4 of RFC 4648): two, three or four carry data and `=`
      fills up; the unused bits must be zero (section 3.5). */
  function DecodeGroup(a: char, b: char, c: char, d: char): Option<Bytes> {
    if Sextet(a).None? || Sextet(b).None? then None
    else
      var s0, s1 := Sextet(a).value, Sextet(b).value;
      if c == '=' then if d == '=' && s1 % 16 == 0 then Some([s0 * 4 + s1 / 16]) else None
      else if Sextet(c).None? then None
      else
        var s2 := Sextet(c).value;
        if d == '=' then if s2 % 4 == 0 then Some([s0 * 4 + s1 / 16, s1 % 16 * 16 + s2 / 4]) else None
        else if Sextet(d).None? then None
        else Some([s0 * 4 + s1 / 16, s1 % 16 * 16 + s2 / 4, s2 % 4 * 64 + Sextet(d).value])
  }

  /** The decoder of section 4 of RFC 4648: only the last group may be padded. */
  function Decode(text: string): Option<Bytes> {
    if text == "" then Some([])
    else if |text| < 4 then None
    else
      var group := DecodeGroup(text[0], text[1], text[2], text[3]);
      var rest := Decode(text[4..]);
      if group.None? || rest.None? || (|group.value| < 3 && |text| > 4) then None
      else Some(group.value + rest.value)
  }

  /** Bytes put together from the sextets of bytes are those bytes. */
  lemma Reassemble(b0: int, b1: int, b2: int)
    requires 0 <= b0 < 256 && 0 <= b1 < 256 && 0 <= b2 < 256
    ensures var (s0, s1, s2, s3) := Sextets(b0, b1, b2);
            && 0 <= s0 < 64 && 0 <= s1 < 64 && 0 <= s2 < 64 && 0 <= s3 < 64
            && s0 * 4 + s1 / 16 == b0 && s1 % 16 * 16 + s2 / 4 == b1 && s2 % 4 * 64 + s3 == b2
            && (b1 == 0 ==> s1 % 16 == 0) && (b2 == 0 ==> s2 % 4 == 0)
  {
    SextetsByBits(b0, b1, b2);
    DivMod(b0 % 4 * 16 + b1 / 16, 16, b0 % 4, b1 / 16);
    DivMod(b1 % 16 * 4 + b2 / 64, 4, b1 % 16, b2 / 64);
  }

  /** Sextets taken from bytes put together from sextets are those sextets. */
  lemma Disassemble(s0: int, s1: int, s2: int, s3: int)
    requires 0 <= s0 < 64 && 0 <= s1 < 64 && 0 <= s2 < 64 && 0 <= s3 < 64
    ensures Sextets(s0 * 4 + s1 / 16, s1 % 16 * 16 + s2 / 4, s2 % 4 * 64 + s3) == (s0, s1, s2, s3)
  {
    SextetsByBits(s0 * 4 + s1 / 16, s1 % 16 * 16 + s2 / 4, s2 % 4 * 64 + s3);
    DivMod(s0 * 4 + s1 / 16, 4, s0, s1 / 16);
    DivMod(s1 % 16 * 16 + s2 / 4, 16, s1 % 16, s2 / 4);
    DivMod(s2 % 4 * 64 + s3, 64, s2 % 4, s3);
  }

  lemma ChunkRoundTrip(chunk: Bytes)
    requires 1 <= |chunk| <= 3
    ensures var t := EncodeChunk(chunk); DecodeGroup(t[0], t[1], t[2], t[3]) == Some(chunk)
  {
    var b1, b2: int := if |chunk| > 1 then chunk[1] else 0, if |chunk| > 2 then chunk[2] else 0;
    Reassemble(chunk[0], b1, b2);
    var s := Sextets(chunk[0], b1, b2);
    SextetOfSymbol(s.0);
    SextetOfSymbol(s.1);
    SextetOfSymbol(s.2);
    SextetOfSymbol(s.3);
    assert chunk ==
           if |chunk| == 1 then [chunk[0]]
           else if |chunk| == 2 then [chunk[0], chunk[1]] else [chunk[0], chunk[1], chunk[2]];
  }

  lemma GroupRoundTrip(a: char, b: char, c: char, d: char)
    requires DecodeGroup(a, b, c, d).Some?
    ensures 1 <= |DecodeGroup(a, b, c, d).value| <= 3 && EncodeChunk(DecodeGroup(a, b, c, d).value) == [a, b, c, d]
  {
    SymbolOfSextet(a);
    SymbolOfSextet(b);
    var s0, s1 := Sextet(a).value, Sextet(b).value;
    if c == '=' {
      Disassemble(s0, s1, 0, 0);
    } else {
      SymbolOfSextet(c);
      if d == '=' {
        Disassemble(s0, s1, Sextet(c).value, 0);
      } else {
        SymbolOfSextet(d);
        Disassemble(s0, s1, Sextet(c).value, Sextet(d).value);
      }
    }
  }

  lemma {:induction false} EncodedLength(bytes: Bytes)
    ensures |Encode(bytes)| == (|bytes| + 2) / 3 * 4
  {
    if bytes == [] {
    } else {
      var n := if |bytes| < 3 then |bytes| else 3;
      EncodedLength(bytes[n..]);
      assert |Encode(bytes)| == 4 + |Encode(bytes[n..])|;
      assert (|bytes| + 2) / 3 == (|bytes| - n + 2) / 3 + 1;
    }
  }

  lemma DecodeStep(group: string, text: string, chunk: Bytes)
    requires |group| == 4 && DecodeGroup(group[0], group[1], group[2], group[3]) == Some(chunk)
    requires Decode(text).Some? && (|chunk| == 3 || text == "")
    ensures Decode(group + text) == Some(chunk + Decode(text).value)
  {
    assert (group + text)[4..] == text;
  }

  /** Base64 decodes back to the bytes it was made from. */
  lemma {:induction false} Base64RoundTrip(bytes: Bytes)
    ensures Decode(Encode(bytes)) == Some(bytes)
  {
    if bytes == [] {
    } else {
      var n := if |bytes| < 3 then |bytes| else 3;
      Base64RoundTrip(bytes[n..]);
      ChunkRoundTrip(bytes[..n]);
      DecodeStep(EncodeChunk(bytes[..n]), Encode(bytes[n..]), bytes[..n]);
      assert bytes == bytes[..n] + bytes[n..];
    }
  }

  /** No other text decodes to the same bytes. */
  lemma {:induction false} Base64Canonical(text: string)
    requires Decode(text).Some?
    ensures Encode(Decode(text).value) == text
  {
    if text == "" {
    } else {
      var group, rest := DecodeGroup(text[0], text[1], text[2], text[3]).value, Decode(text[4..]).value;
      GroupRoundTrip(text[0], text[1], text[2], text[3]);
      Base64Canonical(text[4..]);
      var bytes := Decode(text).value;
      if |group| < 3 {
        assert text[4..] == "" && rest == [] && bytes == group;
        assert bytes[|group|..] == [] && bytes[..|group|] == group;
      } else {
        assert bytes[..3] == group && bytes[3..] == rest;
      }
      assert text == text[..4] + text[4..] && text[..4] == [text[0], text[1], text[2], text[3]];
    }
  }

  // ----- shell quoting -----

  /** `s.replace('\'', r"'\''")`. */
  function EscapeQuotes(s: string): string {
    if s == "" then "" else (if s[0] == '\'' then "'\\''" else [s[0]]) + EscapeQuotes(s[1..])
  }

  function ShellQuote(s: string): string { "'" + EscapeQuotes(s) + "'" }

  /** Characters that outside quotes are neither blank nor special to the shell. */
  predicate Plain(c: char) { 'a' <= c <= 'z' || 'A' <= c <= 'Z' || '0' <= c <= '9' || c in "_-./+,:@%" }

  /** Where the shell is while it reads a line: between words, or in a word read so far, inside or
      outside single quotes. */
  datatype Reader = Between | Word(text: string, quoted: bool)

  /** Reading words by the POSIX rules for backslash and single quotes (sections 2.2.1 and 2.2.2
      of the Shell Command Language); no value for a line that is unterminated or that needs more
      than these rules. */
  function ReadWords(line: string, r: Reader): Option<seq<string>>
    decreases |line|
  {
    if line == "" then
      match r
      case Between => Some([])
      case Word(text, quoted) => if quoted then None else Some([text])
    else
      var c := line[0];
      if r.Word? && r.quoted then
        ReadWords(line[1..], if c == '\'' then Word(r.text, false) else Word(r.text + [c], true))
      else if c == '\'' then ReadWords(line[1..], Word(TextOf(r), true))
      else if c == '\\' then
        if |line| < 2 || line[1] == '\n' then None else ReadWords(line[2..], Word(TextOf(r) + [line[1]], false))
      else if c == ' ' then
        var rest := ReadWords(line[1..], Between);
        if rest.None? then None else Some((if r.Word? then [TextOf(r)] else []) + rest.value)
      else if Plain(c) then ReadWords(line[1..], Word(TextOf(r) + [c], false))
      else None
  }

  function TextOf(r: Reader): string {
    match r
    case Between => ""
    case Word(text, _) => text
  }

  /** Leaving the quotes, an escaped quote, and entering again: one quote is read. */
  lemma EscapeIsRead(tail: string, text: string)
    ensures ReadWords("'\\''" + tail, Word(text, true)) == ReadWords(tail, Word(text + ['\''], true))
  {
    var line, escape, reopen := "'\\''" + tail, "\\''" + tail, "'" + tail;
    assert line[1..] == escape && escape[2..] == reopen && reopen[1..] == tail;
    assert ReadWords(line, Word(text, true)) == ReadWords(escape, Word(text, false));
    assert ReadWords(escape, Word(text, false)) == ReadWords(reopen, Word(text + ['\''], false));
    assert ReadWords(reopen, Word(text + ['\''], false)) == ReadWords(tail, Word(text + ['\''], true));
  }

  lemma OrdinaryIsRead(c: char, tail: string, text: string)
    requires c != '\''
    ensures ReadWords([c] + tail, Word(text, true)) == ReadWords(tail, Word(text + [c], true))
  {
    assert ([c] + tail)[1..] == tail;
  }

  /** Inside quotes, the escaped text is read as the text itself. */
  lemma {:induction false} EscapedIsRead(s: string, after: string, text: string)
    ensures ReadWords(EscapeQuotes(s) + after, Word(text, true)) == ReadWords(after, Word(text + s, true))
    decreases |s|
  {
    if s == "" {
      assert EscapeQuotes(s) + after == after && text + s == text;
    } else {
      var tail := EscapeQuotes(s[1..]) + after;
      EscapedIsRead(s[1..], after, text + [s[0]]);
      assert text + [s[0]] + s[1..] == text + s;
      if s[0] == '\'' {
        EscapeIsRead(tail, text);
        assert EscapeQuotes(s) + after == "'\\''" + tail;
      } else {
        OrdinaryIsRead(s[0], tail, text);
        assert EscapeQuotes(s) + after == [s[0]] + tail;
      }
    }
  }

  /** A quoted string is read as exactly itself, whatever it contains and whatever follows. */
  lemma QuotedIsRead(s: string, after: string)
    ensures ReadWords(ShellQuote(s) + after, Between) == ReadWords(after, Word(s, false))
  {
    var line := ShellQuote(s) + after;
    assert line[1..] == EscapeQuotes(s) + ("'" + after);
    EscapedIsRead(s, "'" + after, "");
    assert "" + s == s && ("'" + after)[1..] == after;
  }

  function QuoteAll(args: seq<string>): string {
    if args == [] then ""
    else if |args| == 1 then ShellQuote(args[0])
    else ShellQuote(args[0]) + (" " + QuoteAll(args[1..]))
  }

  /** A command line of quoted strings is read as exactly those strings, one word each. */
  lemma {:induction false} QuotedArgumentsAreRead(args: seq<string>)
    ensures ReadWords(QuoteAll(args), Between) == Some(args)
  {
    if |args| == 1 {
      QuotedIsRead(args[0], "");
      assert ReadWords("", Word(args[0], false)) == Some([args[0]]) && [args[0]] == args;
      assert ShellQuote(args[0]) + "" == ShellQuote(args[0]);
    } else if |args| > 1 {
      var rest := QuoteAll(args[1..]);
      QuotedIsRead(args[0], " " + rest);
      QuotedArgumentsAreRead(args[1..]);
      assert (" " + rest)[1..] == rest;
      assert ReadWords(" " + rest, Word(args[0], false)) == Some([args[0]] + args[1..]);
      assert args == [args[0]] + args[1..];
    }
  }
}
