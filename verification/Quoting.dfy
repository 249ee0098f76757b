/**
 R names and quoting: `crates/oak_core/src/identifier.rs` and the quoting functions of
 `crates/harp/src/syntax.rs`. Letters are a parameter. Quoted text is read back the way section
 10.3.1 of the R Language Definition reads a string constant.
 */
module Quoting {
  import opened Prelude

  const TICK: char := '`'
  const BACKSLASH: char := '\\'

  // ---------------------------------------------------------------- names

  /** A table of letters; `is_alphabetic` holds for none of R's delimiters. */
  ghost predicate LetterTable(letter: char -> bool) {
    !letter(TICK) && !letter(BACKSLASH) && !letter('"') && !letter('\'')
  }

  predicate IsDigit(c: char) {
    '0' <= c <= '9'
  }

  /** `is_valid_identifier`. */
  predicate IsValidIdentifier(letter: char -> bool, name: string) {
    && name != ""
    && (letter(name[0]) || name[0] == '.')
    && !(name[0] == '.' && |name| > 1 && IsDigit(name[1]))
    && forall i :: 1 <= i < |name| ==> letter(name[i]) || IsDigit(name[i]) || name[i] == '.' || name[i] == '_'
  }

  /** `is_dot_dot_n`. */
  predicate IsDotDotN(name: string) {
    |name| > 2 && name[0] == '.' && name[1] == '.' && forall i :: 2 <= i < |name| ==> IsDigit(name[i])
  }

  /** `is_reserved`. */
  predicate IsReserved(name: string) {
    || name in {"if", "else", "for", "while", "repeat", "break", "next", "function", "in",
                "TRUE", "FALSE", "NULL", "NA", "NA_integer_", "NA_real_", "NA_complex_", "NA_character_",
                "NaN", "Inf", "...", "_"}
    || IsDotDotN(name)
  }

  datatype RName = RName(semantic: string, identifier: string)

  function Wrap(s: string): string {
    [TICK] + s + [TICK]
  }

  /** Both backticks and what is between them, if the name is wrapped. */
  predicate IsWrapped(name: string) {
    |name| >= 2 && name[0] == TICK && name[|name| - 1] == TICK
  }

  function FromSemantic(letter: char -> bool, name: string): RName {
    RName(name, if IsValidIdentifier(letter, name) then name else Wrap(name))
  }

  function FromWrapped(letter: char -> bool, inner: string): Result<RName> {
    if inner == "" then Err
    else if TICK in inner then Err
    else if IsReserved(inner) then Ok(RName(inner, Wrap(inner)))
    else Ok(FromSemantic(letter, inner))
  }

  /** `RName::parse`. */
  function Parse(letter: char -> bool, name: string): Result<RName> {
    if name == "" then Err
    else if IsWrapped(name) then FromWrapped(letter, name[1..|name| - 1])
    else if TICK in name then Err
    else if IsReserved(name) then Err
    else Ok(FromSemantic(letter, name))
  }

  /** No reserved word has a backtick in it. */
  lemma ReservedPlain(name: string)
    requires IsReserved(name)
    ensures TICK !in name
  {
    if IsDotDotN(name) {
      forall i | 0 <= i < |name| ensures name[i] != TICK {
        assert i >= 2 ==> IsDigit(name[i]);
      }
    }
  }

  /** A character that may continue an identifier. */
  predicate IsNameChar(letter: char -> bool, c: char) {
    letter(c) || IsDigit(c) || c == '.' || c == '_'
  }

  /**
   Valid identifiers, built up one character at a time: they start with a letter or a dot, and any
   name character may follow, except a digit right after a leading dot.
   */
  lemma IdentifierGrowth(letter: char -> bool, name: string, c: char)
    ensures !IsValidIdentifier(letter, "")
    ensures IsValidIdentifier(letter, [c]) <==> letter(c) || c == '.'
    ensures name != "" ==> (IsValidIdentifier(letter, name + [c]) <==>
              IsValidIdentifier(letter, name) && IsNameChar(letter, c) && !(name == "." && IsDigit(c)))
  {
    if name != "" {
      var longer := name + [c];
      assert forall i :: 0 <= i < |name| ==> longer[i] == name[i];
      assert longer[|name|] == c;
    }
  }

  /** The reserved words of R can be named between backticks only; and nothing else is reserved. */
  lemma ReservedOnlyWrapped(letter: char -> bool, word: string, digits: string)
    requires digits != "" && forall c :: c in digits ==> '0' <= c <= '9'
    requires word in {"if", "else", "for", "while", "repeat", "break", "next", "function", "in",
                      "TRUE", "FALSE", "NULL", "NA", "NA_integer_", "NA_real_", "NA_complex_", "NA_character_",
                      "NaN", "Inf", "...", "_", ".." + digits}
    ensures Parse(letter, word) == Err && Parse(letter, Wrap(word)) == Ok(RName(word, Wrap(word)))
  {
    if word == ".." + digits {
      assert word[2..] == digits;
      forall i | 2 <= i < |word| ensures IsDigit(word[i]) {
        assert word[i] == digits[i - 2] && word[i] in digits;
      }
      assert IsDotDotN(word);
    }
    assert IsReserved(word);
    ReservedPlain(word);
    WrapParts(word);
  }

  /** A name that is refused bare but accepted between backticks is one of those words. */
  lemma OnlyThoseReserved(letter: char -> bool, name: string)
    requires Parse(letter, name) == Err && Parse(letter, Wrap(name)).Ok? && !IsWrapped(name)
    ensures name in {"if", "else", "for", "while", "repeat", "break", "next", "function", "in",
                     "TRUE", "FALSE", "NULL", "NA", "NA_integer_", "NA_real_", "NA_complex_", "NA_character_",
                     "NaN", "Inf", "...", "_"}
            || (|name| > 2 && name[..2] == ".." && forall c :: c in name[2..] ==> '0' <= c <= '9')
  {
    WrapParts(name);
    assert IsReserved(name);
    if IsDotDotN(name) {
      forall c | c in name[2..] ensures '0' <= c <= '9' {
        var i :| 0 <= i < |name[2..]| && name[2..][i] == c;
        assert IsDigit(name[i + 2]);
      }
    }
  }

  lemma WrapParts(s: string)
    ensures IsWrapped(Wrap(s)) && Wrap(s)[1..|Wrap(s)| - 1] == s
  {
  }

  /** What a spelling names: the part between backticks, or all of it. */
  function Meant(name: string): string {
    if IsWrapped(name) then name[1..|name| - 1] else name
  }

  /** The accepted spellings: a name without backticks between backticks, or bare and not reserved. */
  lemma ParseAccepts(letter: char -> bool, name: string)
    ensures Parse(letter, name).Ok? <==>
            exists s :: s != "" && TICK !in s && (name == Wrap(s) || (name == s && !IsReserved(s)))
    ensures Parse(letter, name).Ok? ==> Parse(letter, name).value.semantic == Meant(name)
  {
    var s := Meant(name);
    if IsWrapped(name) {
      assert name == Wrap(s);
    }
    assert Parse(letter, name).Ok? ==> s != "" && TICK !in s && (name == Wrap(s) || (name == s && !IsReserved(s)));
    forall u | u != "" && TICK !in u && (name == Wrap(u) || (name == u && !IsReserved(u)))
      ensures Parse(letter, name).Ok?
    {
      WrapParts(u);
    }
  }

  /**
   Re-parsing the identifier of an accepted name gives the same name. The identifier is never a
   reserved word: it is the semantic name, bare exactly when that is valid and not reserved.
   */
  lemma ReparseIdentifier(letter: char -> bool, name: string)
    requires LetterTable(letter) && Parse(letter, name).Ok?
    ensures var r := Parse(letter, name).value;
            && Parse(letter, r.identifier) == Ok(r)
            && !IsReserved(r.identifier)
            && r.semantic != "" && TICK !in r.semantic
            && r.identifier == if IsValidIdentifier(letter, r.semantic) && !IsReserved(r.semantic)
                               then r.semantic else Wrap(r.semantic)
  {
    var r := Parse(letter, name).value;
    WrapParts(r.semantic);
    if r.identifier == r.semantic {
      assert !IsWrapped(r.identifier);
    } else {
      assert TICK in r.identifier by { assert r.identifier[0] == TICK; }
      if IsReserved(r.identifier) { ReservedPlain(r.identifier); }
    }
  }

  /** All spellings of a name have one identifier, and different names have different ones. */
  lemma OneIdentifier(letter: char -> bool, a: string, b: string)
    requires LetterTable(letter) && Parse(letter, a).Ok? && Parse(letter, b).Ok?
    ensures Meant(a) == Meant(b) <==> Parse(letter, a).value.identifier == Parse(letter, b).value.identifier
  {
    ParseAccepts(letter, a);
    ParseAccepts(letter, b);
    ReparseIdentifier(letter, a);
    ReparseIdentifier(letter, b);
  }

  // ---------------------------------------------------------------- escaping

  /** `str::replace` with a one-character pattern. */
  function Replace(s: string, c: char, to: string): string {
    if s == "" then "" else (if s[0] == c then to else [s[0]]) + Replace(s[1..], c, to)
  }

  /** How one character is written between delimiters. */
  type Escape = char -> string

  function EscapeAll(s: string, esc: Escape): string {
    if s == "" then "" else esc(s[0]) + EscapeAll(s[1..], esc)
  }

  /** Backslashes and the delimiter, each behind a backslash. */
  function Basic(d: char): Escape {
    c => if c == BACKSLASH then [BACKSLASH, BACKSLASH] else if c == d then [BACKSLASH, d] else [c]
  }

  /** The escapes of `str_quote`. */
  function Full(): Escape {
    (c: char) => match c
         case '"' => "\\\""
         case '\\' => "\\\\"
         case '\n' => "\\n"
         case '\r' => "\\r"
         case '\t' => "\\t"
         case _ => [c]
  }

  /** The two replaces in a row, first of backslashes, then of the delimiter. */
  function TwoReplaces(s: string, d: char): string {
    Replace(Replace(s, BACKSLASH, [BACKSLASH, BACKSLASH]), d, [BACKSLASH, d])
  }

  lemma {:induction false} ReplaceConcat(a: string, b: string, c: char, to: string)
    ensures Replace(a + b, c, to) == Replace(a, c, to) + Replace(b, c, to)
  {
    if a == "" {
      assert a + b == b;
    } else {
      assert (a + b)[1..] == a[1..] + b;
      ReplaceConcat(a[1..], b, c, to);
      var head := if a[0] == c then to else [a[0]];
      assert Replace(a + b, c, to) == head + (Replace(a[1..], c, to) + Replace(b, c, to));
    }
  }

  /** Two successive replaces are one pass, because the first leaves no new delimiter behind. */
  lemma {:induction false} OnePass(s: string, d: char)
    requires d != BACKSLASH
    ensures TwoReplaces(s, d) == EscapeAll(s, Basic(d))
  {
    if s != "" {
      OnePass(s[1..], d);
      var head := if s[0] == BACKSLASH then [BACKSLASH, BACKSLASH] else [s[0]];
      ReplaceConcat(head, Replace(s[1..], BACKSLASH, [BACKSLASH, BACKSLASH]), d, [BACKSLASH, d]);
      ReplaceShort(head, d);
    }
  }

  lemma ReplaceShort(head: string, d: char)
    requires d != BACKSLASH
    ensures head == [BACKSLASH, BACKSLASH] ==> Replace(head, d, [BACKSLASH, d]) == head
    ensures |head| == 1 ==> Replace(head, d, [BACKSLASH, d]) == if head[0] == d then [BACKSLASH, d] else head
  {
    if head == [BACKSLASH, BACKSLASH] {
      assert head[1..] == [BACKSLASH] && [BACKSLASH][1..] == "";
      assert Replace([BACKSLASH], d, [BACKSLASH, d]) == [BACKSLASH];
    } else if |head| == 1 {
      assert head[1..] == "" && head == [head[0]];
    }
  }

  /** `RName::quoted`. */
  function Quoted(r: RName, d: char): string {
    [d] + TwoReplaces(r.semantic, d) + [d]
  }

  /** `sym_quote`. */
  function SymQuote(name: string): string {
    [TICK] + TwoReplaces(name, TICK) + [TICK]
  }

  /** `str_quote`: the buffer, one character at a time. */
  method StrQuote(value: string) returns (literal: string)
    ensures literal == ['"'] + EscapeAll(value, Full()) + ['"']
  {
    literal := ['"'];
    assert value[..0] == "" && value[..|value|] == value;
    assert ['"'] + EscapeAll("", Full()) == ['"'];
    for i := 0 to |value|
      invariant literal == ['"'] + EscapeAll(value[..i], Full())
    {
      hide EscapeAll;
      ghost var before := literal;
      var c := value[i];
      EscapeSnoc(value[..i], c, Full());
      assert value[..i + 1] == value[..i] + [c];
      match c {
        case '"' => literal := literal + "\\\"";
        case '\\' => literal := literal + "\\\\";
        case '\n' => literal := literal + "\\n";
        case '\r' => literal := literal + "\\r";
        case '\t' => literal := literal + "\\t";
        case _ => literal := literal + [c];
      }
      assert literal == before + Full()(c);
      Join(['"'], EscapeAll(value[..i], Full()), Full()(c));
    }
    literal := literal + ['"'];
  }

  lemma {:induction false} EscapeSnoc(s: string, c: char, esc: Escape)
    ensures EscapeAll(s + [c], esc) == EscapeAll(s, esc) + esc(c)
  {
    if s == "" {
      assert s + [c] == [c] && [c][1..] == "";
    } else {
      assert (s + [c])[1..] == s[1..] + [c];
      EscapeSnoc(s[1..], c, esc);
      assert EscapeAll(s + [c], esc) == esc(s[0]) + (EscapeAll(s[1..], esc) + esc(c));
    }
  }

  // ---------------------------------------------------------------- reading back

  /** What a backslash and this character stand for, among the escapes at hand. */
  function Unescaped(c: char): Option<char> {
    match c
    case 'n' => Some('\n')
    case 'r' => Some('\r')
    case 't' => Some('\t')
    case '\\' => Some(c)
    case '"' => Some(c)
    case '\'' => Some(c)
    case '`' => Some(c)
    case _ => None
  }

  /** The content of a literal and what follows its closing delimiter. */
  datatype Reading = Bad | Read(content: string, rest: string)

  function Cons(c: char, r: Reading): Reading {
    if r.Read? then Read([c] + r.content, r.rest) else Bad
  }

  /** Reads up to the closing delimiter. */
  function ReadBody(s: string, d: char): Reading
    decreases |s|
  {
    if s == "" then Bad
    else if s[0] == d then Read("", s[1..])
    else if s[0] != BACKSLASH then Cons(s[0], ReadBody(s[1..], d))
    else if |s| == 1 || Unescaped(s[1]).None? then Bad
    else Cons(Unescaped(s[1]).value, ReadBody(s[2..], d))
  }

  function ReadLiteral(s: string, d: char): Reading {
    if s == "" || s[0] != d then Bad else ReadBody(s[1..], d)
  }

  /** An escape is readable: every character is plain, or a backslash and something that stands for it. */
  ghost predicate Readable(esc: Escape, d: char) {
    forall c: char ::
      || (esc(c) == [c] && c != d && c != BACKSLASH)
      || (|esc(c)| == 2 && esc(c)[0] == BACKSLASH && Unescaped(esc(c)[1]) == Some(c))
  }

  /** One escaped character reads as itself. */
  lemma ReadOne(c: char, esc: Escape, d: char, tail: string)
    requires Readable(esc, d) && d != BACKSLASH
    ensures ReadBody(esc(c) + tail, d) == Cons(c, ReadBody(tail, d))
  {
    assert |esc(c)| == 1 ==> (esc(c) + tail)[1..] == tail;
    assert |esc(c)| == 2 ==> (esc(c) + tail)[2..] == tail;
  }

  lemma Join(a: string, b: string, c: string)
    ensures (a + b) + c == a + (b + c)
  {
  }

  lemma EscapeHead(s: string, esc: Escape)
    requires s != ""
    ensures EscapeAll(s, esc) == esc(s[0]) + EscapeAll(s[1..], esc)
  {
  }

  lemma EscapeStep(s: string, esc: Escape, end: string)
    requires s != ""
    ensures EscapeAll(s, esc) + end == esc(s[0]) + (EscapeAll(s[1..], esc) + end)
  {
    hide EscapeAll;
    EscapeHead(s, esc);
    Join(esc(s[0]), EscapeAll(s[1..], esc), end);
  }

  lemma ReadEnd(d: char, rest: string)
    ensures ReadBody([d] + rest, d) == Read("", rest)
  {
  }

  lemma {:induction false} ReadEscaped(s: string, esc: Escape, d: char, rest: string)
    requires Readable(esc, d) && d != BACKSLASH
    ensures ReadBody(EscapeAll(s, esc) + ([d] + rest), d) == Read(s, rest)
    decreases |s|
  {
    if s == "" {
      assert EscapeAll(s, esc) + ([d] + rest) == [d] + rest;
      ReadEnd(d, rest);
    } else {
      hide EscapeAll, ReadBody, Readable;
      ReadEscaped(s[1..], esc, d, rest);
      EscapeStep(s, esc, [d] + rest);
      ReadOne(s[0], esc, d, EscapeAll(s[1..], esc) + ([d] + rest));
      assert s == [s[0]] + s[1..];
    }
  }

  lemma LiteralParts(body: string, d: char)
    ensures body + ([d] + "") == body + [d]
    ensures ([d] + body + [d])[0] == d && ([d] + body + [d])[1..] == body + [d]
  {
    assert [d] + body + [d] == [d] + (body + [d]);
  }

  /** Reading a literal made by a readable escape gives back the text and ends at the last character. */
  lemma ReadQuoted(s: string, esc: Escape, d: char)
    requires Readable(esc, d) && d != BACKSLASH
    ensures ReadLiteral([d] + EscapeAll(s, esc) + [d], d) == Read(s, "")
  {
    hide EscapeAll, ReadBody, Readable;
    ReadEscaped(s, esc, d, "");
    LiteralParts(EscapeAll(s, esc), d);
  }

  predicate IsDelimiter(d: char) {
    d == '"' || d == '\'' || d == TICK
  }

  lemma TwoReplacesReadBack(s: string, d: char)
    requires IsDelimiter(d)
    ensures ReadLiteral([d] + TwoReplaces(s, d) + [d], d) == Read(s, "")
  {
    OnePass(s, d);
    assert Readable(Basic(d), d);
    hide EscapeAll, TwoReplaces, ReadLiteral;
    ReadQuoted(s, Basic(d), d);
  }

  /** `quoted` and `sym_quote` read back as the name, for every delimiter R has. */
  lemma QuotedReadsBack(r: RName, d: char)
    requires IsDelimiter(d)
    ensures ReadLiteral(Quoted(r, d), d) == Read(r.semantic, "")
    ensures ReadLiteral(SymQuote(r.semantic), TICK) == Read(r.semantic, "")
  {
    hide ReadLiteral, TwoReplaces;
    TwoReplacesReadBack(r.semantic, d);
    TwoReplacesReadBack(r.semantic, TICK);
  }

  /** `str_quote` reads back as its argument. */
  lemma StrQuoteReadsBack(value: string)
    ensures ReadLiteral(['"'] + EscapeAll(value, Full()) + ['"'], '"') == Read(value, "")
  {
    assert Readable(Full(), '"');
    ReadQuoted(value, Full(), '"');
  }

  lemma {:induction false} ReadRaw(s: string, d: char)
    requires d !in s && d != BACKSLASH
    ensures ReadBody(s + [d], d) == Read(s, "") <==> BACKSLASH !in s
    ensures ReadBody(s + [d], d).Read? ==> |ReadBody(s + [d], d).content| <= |s|
    decreases |s|
  {
    if s != "" {
      assert s == [s[0]] + s[1..];
      assert (s + [d])[1..] == s[1..] + [d];
      ReadRaw(s[1..], d);
      if s[0] == BACKSLASH && |s| > 1 {
        assert (s + [d])[2..] == s[2..] + [d];
        ReadRaw(s[2..], d);
      } else if s[0] == BACKSLASH {
        assert s + [d] == [BACKSLASH, d];
        assert (s + [d])[2..] == "" && ReadBody("", d) == Bad;
      }
    }
  }

  /**
   The identifier of a wrapped name is not escaped, so R reads it as the name exactly when the name
   has no backslash.
   */
  lemma WrappedReadsBackIff(s: string)
    requires TICK !in s
    ensures ReadLiteral(Wrap(s), TICK) == Read(s, "") <==> BACKSLASH !in s
  {
    assert Wrap(s)[1..] == s + [TICK];
    ReadRaw(s, TICK);
  }

  /** `sym_quote_invalid`, for a given notion of valid symbol. */
  function SymQuoteInvalid(valid: string -> bool, name: string): string {
    if valid(name) then name else SymQuote(name)
  }

  /** A valid symbol is written as it is, and only that; anything else reads back from its quotes. */
  lemma QuotedIfInvalid(valid: string -> bool, name: string)
    ensures SymQuoteInvalid(valid, name) == name <==> valid(name)
    ensures !valid(name) ==> ReadLiteral(SymQuoteInvalid(valid, name), TICK) == Read(name, "")
  {
    QuotedReadsBack(RName(name, name), TICK);
    hide ReadLiteral;
    QuotedLonger(name);
  }

  lemma {:induction false} ReplaceLonger(s: string, c: char, to: string)
    requires |to| >= 1
    ensures |Replace(s, c, to)| >= |s|
  {
    if s != "" {
      ReplaceLonger(s[1..], c, to);
    }
  }

  lemma QuotedLonger(name: string)
    ensures |SymQuote(name)| > |name|
  {
    var once := Replace(name, BACKSLASH, [BACKSLASH, BACKSLASH]);
    ReplaceLonger(name, BACKSLASH, [BACKSLASH, BACKSLASH]);
    ReplaceLonger(once, TICK, [BACKSLASH, TICK]);
  }

  /** The literal is one line: no raw line feed, carriage return or tab is left in it. */
  lemma {:induction false} OneLine(value: string)
    ensures forall c :: c in EscapeAll(value, Full()) ==> c != '\n' && c != '\r' && c != '\t'
  {
    if value != "" {
      OneLine(value[1..]);
    }
  }

  /** The escapes, spelled out. */
  lemma EscapesSpelled()
    ensures Full()('"') == ['\\', '"'] && Full()('\\') == ['\\', '\\']
    ensures Full()('\n') == ['\\', 'n'] && Full()('\r') == ['\\', 'r'] && Full()('\t') == ['\\', 't']
    ensures forall c :: c !in {'"', '\\', '\n', '\r', '\t'} ==> Full()(c) == [c]
  {
  }

  /** Different names are never written the same, if valid symbols do not start with a backtick. */
  lemma SymQuoteInvalidInjective(valid: string -> bool, a: string, b: string)
    requires forall s: string :: valid(s) ==> s == "" || s[0] != TICK
    requires SymQuoteInvalid(valid, a) == SymQuoteInvalid(valid, b)
    ensures a == b
  {
    QuotedReadsBack(RName(a, a), TICK);
    QuotedReadsBack(RName(b, b), TICK);
    assert SymQuote(a)[0] == TICK && SymQuote(b)[0] == TICK;
  }
}
