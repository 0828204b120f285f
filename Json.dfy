/** The one JSON text the helpers produce: `JSON.stringify` of a package manifest
    `{ name, main }`. Strings are quoted as `JSON.stringify` quotes them; a small
    reader for quoted strings is the partner that the round-trip lemmas check the
    writer against. */
module Json {
  import opened Wrappers

  /** The lower-case hexadecimal digit for `n`. */
  function HexDigit(n: int): char
    requires 0 <= n < 16
  {
    "0123456789abcdef"[n]
  }

  /** The value of a hexadecimal digit of either case. */
  function HexValue(c: char): (r: Option<int>)
    ensures r.Some? ==> 0 <= r.value < 16
  {
    if '0' <= c <= '9' then Some(c as int - '0' as int)
    else if 'a' <= c <= 'f' then Some(c as int - 'a' as int + 10)
    else if 'A' <= c <= 'F' then Some(c as int - 'A' as int + 10)
    else None
  }

  /** How `JSON.stringify` writes one character inside a string literal: the
      quote and the backslash are escaped, five control characters have short
      escapes, the other control characters become `\u00xx`, everything else is
      written as is. */
  function EscapeChar(c: char): string
  {
    if c == '"' then ['\\', '"']
    else if c == '\\' then ['\\', '\\']
    else if c as int == 8 then ['\\', 'b']
    else if c as int == 12 then ['\\', 'f']
    else if c == '\n' then ['\\', 'n']
    else if c == '\r' then ['\\', 'r']
    else if c == '\t' then ['\\', 't']
    else if c as int < 0x20 then ['\\', 'u', '0', '0', HexDigit(c as int / 16), HexDigit(c as int % 16)]
    else [c]
  }

  /** The characters of `s`, each escaped. */
  function Escape(s: string): string
  {
    if s == [] then [] else EscapeChar(s[0]) + Escape(s[1..])
  }

  /** A string as `JSON.stringify` writes it: escaped, between double quotes. */
  function Quote(s: string): string
  {
    "\"" + Escape(s) + "\""
  }

  /** The `main` entry every mock package declares. */
  const MainEntry := "./src/index.ts"

  /** What precedes the name, and what separates it from the entry. */
  const NameKey := "{\"name\":"
  const MainKey := ",\"main\":"

  /** `JSON.stringify({ name, main })`: no whitespace, keys in insertion order. */
  function ManifestJson(name: string, main: string): string
  {
    NameKey + Quote(name) + MainKey + Quote(main) + "}"
  }

  /** `JSON.stringify({ name, main: './src/index.ts' })`. */
  function PackageJson(name: string): string
  {
    ManifestJson(name, MainEntry)
  }

  /** The value of the four hexadecimal digits at the start of `t`, if they are
      four hexadecimal digits. */
  function Hex4(t: string): (r: Option<int>)
    requires |t| >= 4
    ensures r.Some? ==> 0 <= r.value < 0x10000
  {
    match (HexValue(t[0]), HexValue(t[1]), HexValue(t[2]), HexValue(t[3]))
    case (Some(a), Some(b), Some(c), Some(d)) => Some(((a * 16 + b) * 16 + c) * 16 + d)
    case _ => None
  }

  /** Puts `c` in front of the string a read produced. */
  function Prepend(c: char, r: Option<(string, string)>): Option<(string, string)>
  {
    match r
    case None => None
    case Some((v, rest)) => Some(([c] + v, rest))
  }

  /** Reads the inside of a JSON string literal whose opening quote has already
      been consumed: the decoded value and what follows the closing quote.
      Escapes of surrogate code units are refused rather than paired. */
  function ReadBody(t: string): Option<(string, string)>
  {
    if t == [] then None
    else if t[0] == '"' then Some(([], t[1..]))
    else if t[0] == '\\' then
      if |t| < 2 then None
      else if t[1] == '"' || t[1] == '\\' || t[1] == '/' then Prepend(t[1], ReadBody(t[2..]))
      else if t[1] == 'b' then Prepend(8 as char, ReadBody(t[2..]))
      else if t[1] == 'f' then Prepend(12 as char, ReadBody(t[2..]))
      else if t[1] == 'n' then Prepend('\n', ReadBody(t[2..]))
      else if t[1] == 'r' then Prepend('\r', ReadBody(t[2..]))
      else if t[1] == 't' then Prepend('\t', ReadBody(t[2..]))
      else if t[1] == 'u' && |t| >= 6 then
        match Hex4(t[2..6])
        case None => None
        case Some(v) =>
          if 0xD800 <= v < 0xE000 then None else Prepend(v as char, ReadBody(t[6..]))
      else None
    else if t[0] as int < 0x20 then None
    else Prepend(t[0], ReadBody(t[1..]))
  }

  /** Reads a JSON string literal at the start of `t`. */
  function ReadString(t: string): Option<(string, string)>
  {
    if |t| > 0 && t[0] == '"' then ReadBody(t[1..]) else None
  }

  /** The fields of a package manifest. */
  datatype Manifest = Manifest(name: string, main: string)

  /** What follows `prefix` in `t`, if `t` starts with it. */
  function Strip(prefix: string, t: string): Option<string>
  {
    if |prefix| <= |t| && t[..|prefix|] == prefix then Some(t[|prefix|..]) else None
  }

  /** Reads back a manifest written in the shape `PackageJson` writes. */
  function ReadManifest(t: string): Option<Manifest>
  {
    match Strip(NameKey, t)
    case None => None
    case Some(afterKey) =>
      match ReadString(afterKey)
      case None => None
      case Some((name, rest)) =>
        match Strip(MainKey, rest)
        case None => None
        case Some(afterMain) =>
          match ReadString(afterMain)
          case None => None
          case Some((main, tail)) => if tail == "}" then Some(Manifest(name, main)) else None
  }

  lemma StripConcat(prefix: string, rest: string)
    ensures Strip(prefix, prefix + rest) == Some(rest)
  {
    assert (prefix + rest)[..|prefix|] == prefix;
    assert (prefix + rest)[|prefix|..] == rest;
  }

  /** Reading one escaped character decodes it and goes on with what follows. */
  lemma ReadEscapedChar(c: char, t: string)
    ensures ReadBody(EscapeChar(c) + t) == Prepend(c, ReadBody(t))
  {
    if c == '"' || c == '\\' {
      ReadQuotedEscape(c, t);
    } else if c as int == 8 || c as int == 12 || c == '\n' || c == '\r' || c == '\t' {
      ReadLetterEscape(c, t);
    } else if c as int < 0x20 {
      ReadUnicodeEscape(c, t);
    } else {
      assert (EscapeChar(c) + t)[1..] == t;
    }
  }

  lemma ReadQuotedEscape(c: char, t: string)
    requires c == '"' || c == '\\'
    ensures ReadBody(EscapeChar(c) + t) == Prepend(c, ReadBody(t))
  {
    var e := EscapeChar(c) + t;
    assert e[0] == '\\' && e[1] == c;
    assert e[2..] == t;
  }

  lemma ReadLetterEscape(c: char, t: string)
    requires c as int == 8 || c as int == 12 || c == '\n' || c == '\r' || c == '\t'
    ensures ReadBody(EscapeChar(c) + t) == Prepend(c, ReadBody(t))
  {
    var e := EscapeChar(c) + t;
    assert e[0] == '\\' && e[1] != '"' && e[1] != '\\' && e[1] != '/';
    assert e[2..] == t;
  }

  lemma ReadUnicodeEscape(c: char, t: string)
    requires c as int < 0x20 && c as int != 8 && c as int != 12 && c != '\n' && c != '\r' && c != '\t'
    ensures ReadBody(EscapeChar(c) + t) == Prepend(c, ReadBody(t))
  {
    var e := EscapeChar(c) + t;
    var hi := c as int / 16;
    var lo := c as int % 16;
    assert e[0] == '\\' && e[1] == 'u';
    assert e[2..6] == ['0', '0', HexDigit(hi), HexDigit(lo)];
    assert HexValue(HexDigit(hi)) == Some(hi);
    assert HexValue(HexDigit(lo)) == Some(lo);
    assert Hex4(e[2..6]) == Some(c as int);
    assert e[6..] == t;
  }

  /** Reading an escaped string up to its closing quote gives the string back,
      and what follows the quote is left untouched. */
  lemma {:induction false} ReadEscape(s: string, rest: string)
    ensures ReadBody(Escape(s) + "\"" + rest) == Some((s, rest))
  {
    if s == [] {
      assert Escape(s) + "\"" + rest == "\"" + rest;
    } else {
      ReadEscape(s[1..], rest);
      assert Escape(s) + "\"" + rest == EscapeChar(s[0]) + (Escape(s[1..]) + "\"" + rest);
      ReadEscapedChar(s[0], Escape(s[1..]) + "\"" + rest);
      assert [s[0]] + s[1..] == s;
    }
  }

  /** A quoted string reads back as itself, whatever follows it. */
  lemma ReadQuote(s: string, rest: string)
    ensures ReadString(Quote(s) + rest) == Some((s, rest))
  {
    ReadEscape(s, rest);
    assert (Quote(s) + rest)[1..] == Escape(s) + "\"" + rest;
  }

  /** A written manifest reads back as the name and entry it was written with. */
  lemma ReadManifestJson(name: string, main: string)
    ensures ReadManifest(ManifestJson(name, main)) == Some(Manifest(name, main))
  {
    var tail := Quote(main) + "}";
    var rest := MainKey + tail;
    var t := ManifestJson(name, main);
    assert t == NameKey + (Quote(name) + rest);
    StripConcat(NameKey, Quote(name) + rest);
    assert Strip(NameKey, t) == Some(Quote(name) + rest);
    ReadQuote(name, rest);
    StripConcat(MainKey, tail);
    ReadQuote(main, "}");
  }

  /** The manifest written for a mock package reads back as its name and the
      fixed `main` entry. */
  lemma ReadPackageJson(name: string)
    ensures ReadManifest(PackageJson(name)) == Some(Manifest(name, MainEntry))
  {
    ReadManifestJson(name, MainEntry);
  }
}
