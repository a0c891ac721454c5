/**
 * Which texts the decoder accepts (src/ast/type_registry.cpp:17-245): spellings of valid
 * types. A number may be padded with zeros, and a dimension counts modulo 2^32. The
 * printer's descriptions (src/ast/type_registry.h:87-241) are the shortest spellings.
 */
module Descriptions {
  import opened Integers
  import opened Types

  // ----- Numbers -----

  lemma {:induction false} DecimalDigits(n: nat)
    ensures forall i | 0 <= i < |Decimal(n)| :: IsDigit(Decimal(n)[i])
  {
    if n >= 10 {
      DecimalDigits(n / 10);
    }
  }

  lemma {:induction false} DecimalValue(n: nat)
    requires forall i | 0 <= i < |Decimal(n)| :: IsDigit(Decimal(n)[i])
    ensures NumberValue(Decimal(n)) == n
  {
    if n >= 10 {
      var s := Decimal(n);
      assert s[..|s| - 1] == Decimal(n / 10);
      DecimalDigits(n / 10);
      DecimalValue(n / 10);
    } else {
      assert NumberValue([]) == 0;
      assert Decimal(n)[..0] == [];
    }
  }

  lemma {:induction false} CountDigits(s: string, rest: string)
    requires forall i | 0 <= i < |s| :: IsDigit(s[i])
    requires rest == [] || !IsDigit(rest[0])
    ensures DigitCount(s + rest) == |s|
  {
    if s != [] {
      assert (s + rest)[1..] == s[1..] + rest;
      CountDigits(s[1..], rest);
    } else {
      assert s + rest == rest;
    }
  }

  /** A text that `read_number` reads. */
  predicate Numeral(s: string) {
    s != [] && (forall i | 0 <= i < |s| :: IsDigit(s[i])) && NumberValue(s) < WORD
  }

  lemma DecimalIsNumeral(n: nat)
    requires n < WORD
    ensures Numeral(Decimal(n)) && NumberValue(Decimal(n)) == n
  {
    DecimalDigits(n);
    DecimalValue(n);
  }

  function Zeros(k: nat): (s: string)
    ensures |s| == k
  {
    if k == 0 then "" else Zeros(k - 1) + "0"
  }

  /** The numerals of a number are its decimal form with any number of zeros in front. */
  lemma {:induction false} NumeralIsPadded(s: string) returns (k: nat)
    requires s != [] && forall i | 0 <= i < |s| :: IsDigit(s[i])
    ensures s == Zeros(k) + Decimal(NumberValue(s))
  {
    var front := s[..|s| - 1];
    var d := DigitValue(s[|s| - 1]);
    assert s == front + [Digit(d)];
    if front == [] {
      k := 0;
      assert NumberValue(front) == 0;
    } else {
      k := NumeralIsPadded(front);
      if NumberValue(front) == 0 {
        k := k + 1;
      }
    }
  }

  lemma NumeralReadBack(s: string, rest: string)
    requires Numeral(s) && (rest == [] || !IsDigit(rest[0]))
    ensures ReadNumber(s + rest) == Ok((NumberValue(s), rest))
  {
    CountDigits(s, rest);
    assert (s + rest)[..|s|] == s && (s + rest)[|s|..] == rest;
  }

  lemma NumberRead(s: string) returns (n: string)
    requires ReadNumber(s).Ok?
    ensures Numeral(n) && NumberValue(n) == ReadNumber(s).value.0 && s == n + ReadNumber(s).value.1
  {
    n := s[..DigitCount(s)];
  }

  // ----- `split` takes off exactly one component -----

  function Plus(n: Result<nat>, k: nat): Result<nat> {
    if n.Ok? then Ok(n.value + k) else n
  }

  /** Inside brackets, `split` goes past all of x, whatever follows. */
  ghost predicate Neutral(x: string) {
    forall rest, b: nat | b > 0 :: SplitLength(x + rest, b) == Plus(SplitLength(rest, b), |x|)
  }

  predicate Plain(c: char) {
    c != '<' && c != '>'
  }

  lemma {:induction false} SplitPastPlain(x: string, rest: string, b: nat)
    requires forall i | 0 <= i < |x| :: Plain(x[i]) && (b > 0 || x[i] != ',')
    ensures SplitLength(x + rest, b) == Plus(SplitLength(rest, b), |x|)
  {
    if x == [] {
      assert x + rest == rest;
    } else {
      assert (x + rest)[1..] == x[1..] + rest;
      SplitPastPlain(x[1..], rest, b);
    }
  }

  lemma PlainIsNeutral(x: string)
    requires forall i | 0 <= i < |x| :: Plain(x[i])
    ensures Neutral(x)
  {
    forall rest, b: nat | b > 0
      ensures SplitLength(x + rest, b) == Plus(SplitLength(rest, b), |x|)
    {
      SplitPastPlain(x, rest, b);
    }
  }

  lemma ConcatIsNeutral(x: string, y: string)
    requires Neutral(x) && Neutral(y)
    ensures Neutral(x + y)
  {
    forall rest, b: nat | b > 0
      ensures SplitLength(x + y + rest, b) == Plus(SplitLength(rest, b), |x + y|)
    {
      assert x + y + rest == x + (y + rest);
    }
  }

  /** "<x>" at any nesting depth b: the scan continues behind it, or ends there if it opened outside any bracket. */
  lemma SplitPastBrackets(x: string, rest: string, b: nat)
    requires Neutral(x)
    ensures SplitLength(Brackets(x) + rest, b) ==
            if b == 0 then Ok(|x| + 2) else Plus(SplitLength(rest, b), |x| + 2)
  {
    var s := Brackets(x) + rest;
    assert s[1..] == x + (">" + rest);
    assert (">" + rest)[1..] == rest;
  }

  lemma BracketsAreNeutral(x: string)
    requires Neutral(x)
    ensures Neutral(Brackets(x))
  {
    forall rest, b: nat | b > 0
      ensures SplitLength(Brackets(x) + rest, b) == Plus(SplitLength(rest, b), |x| + 2)
    {
      SplitPastBrackets(x, rest, b);
    }
  }

  lemma NumeralIsNeutral(s: string)
    requires Numeral(s)
    ensures Neutral(s)
  {
    PlainIsNeutral(s);
  }

  // ----- Spellings -----

  predicate Bracketed(t: Ty) {
    t.Vector? || t.Matrix? || t.Array? || t.Structure? || t.Buffer? || t.Texture?
  }

  /** A type as it is written: the numbers are texts. */
  datatype Spelling =
    | Basic(t: Ty)
    | VectorOf(elem: Spelling, dim: string)
    | MatrixOf(dim: string)
    | ArrayOf(elem: Spelling, dim: string)
    | StructureOf(alignment: string, members: seq<Spelling>)
    | BufferOf(elem: Spelling)
    | TextureOf(dim: string, elem: Spelling)

  predicate Spelled(s: Spelling) {
    match s
    case Basic(t) => !Bracketed(t)
    case VectorOf(e, n) => Spelled(e) && Numeral(n)
    case MatrixOf(n) => Numeral(n)
    case ArrayOf(e, n) => Spelled(e) && Numeral(n)
    case StructureOf(a, ms) => Numeral(a) && forall m | m in ms :: Spelled(m)
    case BufferOf(e) => Spelled(e)
    case TextureOf(n, e) => Numeral(n) && Spelled(e)
  }

  function Dimension(n: string): nat
    requires Numeral(n)
  {
    Wrap32(NumberValue(n))
  }

  function Meaning(s: Spelling): Ty
    requires Spelled(s)
    decreases s, 1
  {
    match s
    case Basic(t) => t
    case VectorOf(e, n) => Vector(Meaning(e), Dimension(n))
    case MatrixOf(n) => Matrix(Dimension(n))
    case ArrayOf(e, n) => Array(Meaning(e), Dimension(n))
    case StructureOf(a, ms) => Structure(NumberValue(a), Meanings(ms))
    case BufferOf(e) => Buffer(Meaning(e))
    case TextureOf(n, e) => Texture(Dimension(n), Meaning(e))
  }

  function Meanings(ms: seq<Spelling>): (r: seq<Ty>)
    requires forall m | m in ms :: Spelled(m)
    ensures |r| == |ms|
    decreases ms, 0
  {
    if ms == [] then [] else [Meaning(ms[0])] + Meanings(ms[1..])
  }

  function Name(s: Spelling): string {
    match s
    case Basic(t) => if Bracketed(t) then "" else Print(t)
    case VectorOf(_, _) => "vector"
    case MatrixOf(_) => "matrix"
    case ArrayOf(_, _) => "array"
    case StructureOf(_, _) => "struct"
    case BufferOf(_) => "buffer"
    case TextureOf(_, _) => "texture"
  }

  function Text(s: Spelling): string
    decreases s, 2
  {
    if s.Basic? then Name(s) else Name(s) + Brackets(Inner(s))
  }

  function Inner(s: Spelling): string
    requires !s.Basic?
    decreases s, 1
  {
    match s
    case VectorOf(e, n) => Text(e) + "," + n
    case MatrixOf(n) => n
    case ArrayOf(e, n) => Text(e) + "," + n
    case StructureOf(a, ms) => a + Texts(ms)
    case BufferOf(e) => Text(e)
    case TextureOf(n, e) => n + "," + Text(e)
  }

  function Texts(ms: seq<Spelling>): string
    decreases ms, 0
  {
    if ms == [] then "" else "," + Text(ms[0]) + Texts(ms[1..])
  }

  lemma NameIsIdentifier(s: Spelling)
    ensures forall i | 0 <= i < |Name(s)| :: InIdentifier(Name(s)[i])
  {
  }

  lemma {:induction false} TextIsNeutral(s: Spelling)
    requires Spelled(s)
    ensures Neutral(Text(s))
    decreases s, 2
  {
    hide Neutral;
    NameIsIdentifier(s);
    PlainIsNeutral(Name(s));
    if !s.Basic? {
      InnerIsNeutral(s);
      BracketsAreNeutral(Inner(s));
      ConcatIsNeutral(Name(s), Brackets(Inner(s)));
    }
  }

  lemma {:induction false} InnerIsNeutral(s: Spelling)
    requires Spelled(s) && !s.Basic?
    ensures Neutral(Inner(s))
    decreases s, 1
  {
    hide Neutral, Text;
    PlainIsNeutral(",");
    match s
    case VectorOf(e, n) =>
      TextIsNeutral(e);
      NumeralIsNeutral(n);
      ConcatIsNeutral(Text(e), ",");
      ConcatIsNeutral(Text(e) + ",", n);
    case MatrixOf(n) =>
      NumeralIsNeutral(n);
    case ArrayOf(e, n) =>
      TextIsNeutral(e);
      NumeralIsNeutral(n);
      ConcatIsNeutral(Text(e), ",");
      ConcatIsNeutral(Text(e) + ",", n);
    case StructureOf(a, ms) =>
      NumeralIsNeutral(a);
      TextsAreNeutral(ms);
      ConcatIsNeutral(a, Texts(ms));
    case BufferOf(e) =>
      TextIsNeutral(e);
    case TextureOf(n, e) =>
      NumeralIsNeutral(n);
      TextIsNeutral(e);
      ConcatIsNeutral(n, ",");
      ConcatIsNeutral(n + ",", Text(e));
  }

  lemma {:induction false} TextsAreNeutral(ms: seq<Spelling>)
    requires forall m | m in ms :: Spelled(m)
    ensures Neutral(Texts(ms))
    decreases ms, 0
  {
    hide Neutral, Text;
    if ms == [] {
      PlainIsNeutral("");
    } else {
      PlainIsNeutral(",");
      TextIsNeutral(ms[0]);
      TextsAreNeutral(ms[1..]);
      ConcatIsNeutral(",", Text(ms[0]));
      ConcatIsNeutral("," + Text(ms[0]), Texts(ms[1..]));
    }
  }

  predicate EndsComponent(rest: string) {
    rest == [] || rest[0] == ',' || rest[0] == '>'
  }

  /** `split` returns exactly the next component's text, at any nesting depth. */
  lemma SplitsOffOne(s: Spelling, rest: string)
    requires Spelled(s) && EndsComponent(rest)
    ensures Split(Text(s) + rest) == Ok((Text(s), rest))
  {
    hide Name, Inner, Neutral;
    NameIsIdentifier(s);
    var all := Text(s) + rest;
    if s.Basic? {
      SplitPastPlain(Name(s), rest, 0);
    } else {
      InnerIsNeutral(s);
      var tail := Brackets(Inner(s)) + rest;
      assert all == Name(s) + tail;
      SplitPastPlain(Name(s), tail, 0);
      SplitPastBrackets(Inner(s), rest, 0);
    }
    assert all[..|Text(s)|] == Text(s) && all[|Text(s)|..] == rest;
  }

  // ----- Every spelling is decoded to its meaning -----

  lemma {:induction false} IdentifierReadBack(id: string, rest: string)
    requires forall i | 0 <= i < |id| :: InIdentifier(id[i])
    requires rest == [] || !InIdentifier(rest[0])
    ensures IdentifierLength(id + rest) == |id|
  {
    if id == [] {
      assert id + rest == rest;
    } else {
      assert (id + rest)[1..] == id[1..] + rest;
      IdentifierReadBack(id[1..], rest);
    }
  }

  lemma DimensionReadBack(n: string, rest: string)
    requires Numeral(n) && (rest == [] || !IsDigit(rest[0]))
    ensures ReadDimension(n + rest) == Ok((Dimension(n), rest))
  {
    hide ReadNumber, Numeral;
    NumeralReadBack(n, rest);
  }

  /** The text behind the name. */
  function Tail(s: Spelling): string {
    if s.Basic? then "" else Brackets(Inner(s))
  }

  lemma NameReadBack(s: Spelling)
    ensures var n := IdentifierLength(Text(s)); Text(s)[..n] == Name(s) && Text(s)[n..] == Tail(s)
  {
    hide Name, Inner;
    NameIsIdentifier(s);
    IdentifierReadBack(Name(s), Tail(s));
    assert Text(s) == Name(s) + Tail(s);
  }

  lemma {:induction false} SpellingIsDecoded(s: Spelling)
    requires Spelled(s) && Valid(Meaning(s))
    ensures Parse(Text(s)) == Ok(Meaning(s))
    decreases s, 1
  {
    hide Text, Inner, Brackets, ParseVector, ParseMatrix, ParseArray, ParseStructure, ParseBuffer, ParseTexture;
    NameReadBack(s);
    if !s.Basic? {
      InnerIsDecoded(s);
    }
  }

  /** The parser of one kind of bracketed type. */
  function ParseTail(s: Spelling, text: string): Result<Ty>
    requires !s.Basic?
  {
    match s
    case VectorOf(_, _) => ParseVector(text)
    case MatrixOf(_) => ParseMatrix(text)
    case ArrayOf(_, _) => ParseArray(text)
    case StructureOf(_, _) => ParseStructure(text)
    case BufferOf(_) => ParseBuffer(text)
    case TextureOf(_, _) => ParseTexture(text)
  }

  /** "<E,N>" is taken apart. */
  lemma ElementReadBack(e: Spelling, n: string)
    requires Spelled(e) && Numeral(n)
    ensures var s := Brackets(Text(e) + "," + n);
            var s1 := Text(e) + ("," + (n + ">"));
            && Match(s, '<') == Ok(s1)
            && Split(s1) == Ok((Text(e), "," + (n + ">")))
            && Match("," + (n + ">"), ',') == Ok(n + ">")
            && ReadDimension(n + ">") == Ok((Dimension(n), ">"))
            && Match(">", '>') == Ok("")
  {
    hide Text, Split, ReadDimension, Numeral;
    assert Brackets(Text(e) + "," + n) == ['<'] + (Text(e) + ("," + (n + ">")));
    SplitsOffOne(e, "," + (n + ">"));
    DimensionReadBack(n, ">");
  }

  lemma VectorIsDecoded(e: Spelling, n: string)
    requires Spelled(e) && Numeral(n) && Valid(Vector(Meaning(e), Dimension(n)))
    requires Parse(Text(e)) == Ok(Meaning(e))
    ensures ParseVector(Brackets(Text(e) + "," + n)) == Ok(Vector(Meaning(e), Dimension(n)))
  {
    assert Meaning(e).Scalar() && 2 <= Dimension(n) <= 4;
    hide Valid;
    ElementReadBack(e, n);
    hide Text, Split, ReadDimension, Match, Brackets, Parse, Dimension, Meaning, Numeral, Spelled;
  }

  lemma MatrixIsDecoded(n: string)
    requires Numeral(n) && Valid(Matrix(Dimension(n)))
    ensures ParseMatrix(Brackets(n)) == Ok(Matrix(Dimension(n)))
  {
    hide ReadDimension, Dimension, Numeral;
    assert Brackets(n) == ['<'] + (n + ">");
    DimensionReadBack(n, ">");
  }

  lemma ArrayIsDecoded(e: Spelling, n: string)
    requires Spelled(e) && Numeral(n) && Valid(Array(Meaning(e), Dimension(n)))
    requires Parse(Text(e)) == Ok(Meaning(e))
    ensures ParseArray(Brackets(Text(e) + "," + n)) == Ok(Array(Meaning(e), Dimension(n)))
  {
    ElementReadBack(e, n);
    hide Text, Split, ReadDimension, Match, Brackets, Parse, Dimension, Meaning, Numeral, Spelled;
  }

  lemma BufferIsDecoded(e: Spelling)
    requires Spelled(e) && Valid(Buffer(Meaning(e))) && Parse(Text(e)) == Ok(Meaning(e))
    ensures ParseBuffer(Brackets(Text(e))) == Ok(Buffer(Meaning(e)))
  {
    hide Text, Split, Parse, Meaning, Spelled;
    assert Brackets(Text(e)) == ['<'] + (Text(e) + ">");
    SplitsOffOne(e, ">");
  }

  lemma TextureIsDecoded(n: string, e: Spelling)
    requires Spelled(e) && Numeral(n) && Valid(Texture(Dimension(n), Meaning(e)))
    requires Parse(Text(e)) == Ok(Meaning(e))
    ensures ParseTexture(Brackets(n + "," + Text(e))) == Ok(Texture(Dimension(n), Meaning(e)))
  {
    hide Text, Split, ReadDimension, Parse, Dimension, Meaning, Numeral, Spelled;
    var s2 := Text(e) + ">";
    assert Brackets(n + "," + Text(e)) == ['<'] + (n + ([','] + s2));
    DimensionReadBack(n, [','] + s2);
    SplitsOffOne(e, ">");
  }

  lemma {:induction false} MembersAreDecoded(ms: seq<Spelling>)
    requires (forall m | m in ms :: Spelled(m)) && forall t | t in Meanings(ms) :: Valid(t)
    ensures ParseMembers(Texts(ms) + ">") == Ok((Meanings(ms), ">"))
    decreases ms, 0
  {
    hide Text, Split, Parse, Meaning, Spelled, Valid;
    if ms != [] {
      var rest := Texts(ms[1..]) + ">";
      var s := Texts(ms) + ">";
      assert s == [','] + (Text(ms[0]) + rest);
      assert s[1..] == Text(ms[0]) + rest;
      assert Meanings(ms)[0] == Meaning(ms[0]) && Meanings(ms)[1..] == Meanings(ms[1..]);
      assert forall t | t in Meanings(ms[1..]) :: t in Meanings(ms);
      SpellingIsDecoded(ms[0]);
      MembersAreDecoded(ms[1..]);
      SplitsOffOne(ms[0], rest);
      assert Split(s[1..]) == Ok((Text(ms[0]), rest));
    } else {
      assert Texts(ms) + ">" == ">";
    }
  }

  lemma StructureIsDecoded(a: string, ms: seq<Spelling>)
    requires Numeral(a) && (forall m | m in ms :: Spelled(m)) && Valid(Structure(NumberValue(a), Meanings(ms)))
    requires ParseMembers(Texts(ms) + ">") == Ok((Meanings(ms), ">"))
    ensures ParseStructure(Brackets(a + Texts(ms))) == Ok(Structure(NumberValue(a), Meanings(ms)))
  {
    hide Text, ReadNumber, ParseMembers, Meanings, Numeral;
    var rest := Texts(ms) + ">";
    assert rest[0] == ',' || rest[0] == '>';
    assert Brackets(a + Texts(ms)) == ['<'] + (a + rest);
    NumeralReadBack(a, rest);
  }

  lemma {:induction false} InnerIsDecoded(s: Spelling)
    requires Spelled(s) && Valid(Meaning(s)) && !s.Basic?
    ensures ParseTail(s, Tail(s)) == Ok(Meaning(s))
    decreases s, 0
  {
    hide Text, Parse, Brackets, Numeral, Dimension;
    match s
    case VectorOf(e, n) =>
      SpellingIsDecoded(e);
      VectorIsDecoded(e, n);
    case MatrixOf(n) =>
      MatrixIsDecoded(n);
    case ArrayOf(e, n) =>
      SpellingIsDecoded(e);
      ArrayIsDecoded(e, n);
    case StructureOf(a, ms) =>
      MembersAreDecoded(ms);
      StructureIsDecoded(a, ms);
    case BufferOf(e) =>
      SpellingIsDecoded(e);
      BufferIsDecoded(e);
    case TextureOf(n, e) =>
      SpellingIsDecoded(e);
      TextureIsDecoded(n, e);
  }

  // ----- Every text that is decoded is a spelling -----

  lemma DimensionRead(s: string) returns (n: string)
    requires ReadDimension(s).Ok?
    ensures Numeral(n) && Dimension(n) == ReadDimension(s).value.0 && s == n + ReadDimension(s).value.1
  {
    hide ReadNumber, Numeral;
    n := NumberRead(s);
  }

  lemma BracketsOf(text: string, inner: string, rest: string)
    ensures text == ['<'] + rest && rest == inner + ">" ==> text == Brackets(inner)
  {
  }

  lemma {:induction false} VectorIsSpelled(text: string) returns (s: Spelling)
    requires ParseVector(text).Ok?
    ensures s.VectorOf? && Spelled(s) && Tail(s) == text && Meaning(s) == ParseVector(text).value
    decreases |text|, 0
  {
    hide Parse, Split, ReadDimension, Text, Numeral, Valid, Brackets;
    var s1 := Match(text, '<').value;
    var p := Split(s1).value;
    var s2 := Match(p.1, ',').value;
    var e := ParsedIsSpelled(p.0);
    var n := DimensionRead(s2);
    s := VectorOf(e, n);
    var close := ReadDimension(s2).value.1;
    assert close == ">";
    BracketsOf(text, Text(e) + "," + n, s1);
    assert s1 == Text(e) + "," + n + ">";
  }

  lemma {:induction false} ArrayIsSpelled(text: string) returns (s: Spelling)
    requires ParseArray(text).Ok?
    ensures s.ArrayOf? && Spelled(s) && Tail(s) == text && Meaning(s) == ParseArray(text).value
    decreases |text|, 0
  {
    hide Parse, Split, ReadDimension, Text, Numeral, Valid, Brackets;
    var s1 := Match(text, '<').value;
    var p := Split(s1).value;
    var s2 := Match(p.1, ',').value;
    var e := ParsedIsSpelled(p.0);
    var n := DimensionRead(s2);
    s := ArrayOf(e, n);
    var close := ReadDimension(s2).value.1;
    assert close == ">";
    BracketsOf(text, Text(e) + "," + n, s1);
    assert s1 == Text(e) + "," + n + ">";
  }

  lemma MatrixIsSpelled(text: string) returns (s: Spelling)
    requires ParseMatrix(text).Ok?
    ensures s.MatrixOf? && Spelled(s) && Tail(s) == text && Meaning(s) == ParseMatrix(text).value
  {
    hide ReadDimension, Numeral, Brackets;
    var s1 := Match(text, '<').value;
    var n := DimensionRead(s1);
    s := MatrixOf(n);
    assert ReadDimension(s1).value.1 == ">";
    BracketsOf(text, n, s1);
  }

  lemma {:induction false} BufferIsSpelled(text: string) returns (s: Spelling)
    requires ParseBuffer(text).Ok?
    ensures s.BufferOf? && Spelled(s) && Tail(s) == text && Meaning(s) == ParseBuffer(text).value
    decreases |text|, 0
  {
    hide Parse, Split, Text, Valid, Brackets;
    var s1 := Match(text, '<').value;
    var p := Split(s1).value;
    var e := ParsedIsSpelled(p.0);
    s := BufferOf(e);
    assert p.1 == ">";
    BracketsOf(text, Text(e), s1);
  }

  lemma {:induction false} TextureIsSpelled(text: string) returns (s: Spelling)
    requires ParseTexture(text).Ok?
    ensures s.TextureOf? && Spelled(s) && Tail(s) == text && Meaning(s) == ParseTexture(text).value
    decreases |text|, 0
  {
    hide Parse, Split, ReadDimension, Text, Numeral, Valid, Brackets;
    var s1 := Match(text, '<').value;
    var n := DimensionRead(s1);
    var s2 := Match(ReadDimension(s1).value.1, ',').value;
    var p := Split(s2).value;
    var e := ParsedIsSpelled(p.0);
    s := TextureOf(n, e);
    assert p.1 == ">";
    BracketsOf(text, n + "," + Text(e), s1);
    assert s1 == n + "," + Text(e) + ">";
  }

  lemma {:induction false} MembersAreSpelled(text: string) returns (ms: seq<Spelling>)
    requires ParseMembers(text).Ok?
    ensures (forall m | m in ms :: Spelled(m)) && Meanings(ms) == ParseMembers(text).value.0
    ensures text == Texts(ms) + ParseMembers(text).value.1
    decreases |text|, 0
  {
    hide Parse, Split, Text, Valid;
    if text == [] || text[0] != ',' {
      ms := [];
    } else {
      var p := Split(text[1..]).value;
      assert |p.0 + p.1| == |text[1..]|;
      var m := ParsedIsSpelled(p.0);
      var rest := MembersAreSpelled(p.1);
      ms := [m] + rest;
      assert ms[1..] == rest;
      assert text == "," + text[1..];
    }
  }

  lemma {:induction false} StructureIsSpelled(text: string) returns (s: Spelling)
    requires ParseStructure(text).Ok?
    ensures s.StructureOf? && Spelled(s) && Tail(s) == text && Meaning(s) == ParseStructure(text).value
    decreases |text|, 0
  {
    hide Parse, ReadNumber, ParseMembers, Texts, Numeral, Valid, Brackets;
    var s1 := Match(text, '<').value;
    var a := NumberRead(s1);
    var s2 := ReadNumber(s1).value.1;
    var ms := MembersAreSpelled(s2);
    s := StructureOf(a, ms);
    assert ParseMembers(s2).value.1 == ">";
    BracketsOf(text, a + Texts(ms), s1);
    assert s1 == a + Texts(ms) + ">";
  }

  lemma {:induction false} ParsedIsSpelled(desc: string) returns (s: Spelling)
    requires Parse(desc).Ok?
    ensures Spelled(s) && Text(s) == desc && Meaning(s) == Parse(desc).value
    decreases |desc|, 1
  {
    hide ParseVector, ParseMatrix, ParseArray, ParseStructure, ParseBuffer, ParseTexture, Inner, Brackets, Valid;
    var n := IdentifierLength(desc);
    var identifier, rest := desc[..n], desc[n..];
    assert desc == identifier + rest;
    if identifier == "vector" {
      s := VectorIsSpelled(rest);
    } else if identifier == "matrix" {
      s := MatrixIsSpelled(rest);
    } else if identifier == "array" {
      s := ArrayIsSpelled(rest);
    } else if identifier == "struct" {
      s := StructureIsSpelled(rest);
    } else if identifier == "buffer" {
      s := BufferIsSpelled(rest);
    } else if identifier == "texture" {
      s := TextureIsSpelled(rest);
    } else {
      s := Basic(Parse(desc).value);
      assert rest == [];
    }
  }

  /** The decoder accepts exactly the spellings of valid types, and yields their meanings. */
  lemma DecodesIffSpelled(desc: string, t: Ty)
    ensures Parse(desc) == Ok(t) <==> Valid(t) && exists s :: Spelled(s) && Text(s) == desc && Meaning(s) == t
  {
    hide Text, Meaning, Spelled;
    if Parse(desc) == Ok(t) {
      var s := ParsedIsSpelled(desc);
    }
    if s :| Valid(t) && Spelled(s) && Text(s) == desc && Meaning(s) == t {
      SpellingIsDecoded(s);
    }
  }

  // ----- A text has one spelling -----

  lemma FirstComponent(s: Spelling, u: Spelling, rest: string, rest': string)
    requires Spelled(s) && Spelled(u) && EndsComponent(rest) && EndsComponent(rest')
    requires Text(s) + rest == Text(u) + rest'
    ensures Text(s) == Text(u) && rest == rest'
  {
    hide Text, Split;
    SplitsOffOne(s, rest);
    SplitsOffOne(u, rest');
  }

  lemma FirstNumeral(n: string, m: string, rest: string, rest': string)
    requires Numeral(n) && Numeral(m) && n + rest == m + rest'
    requires (rest == [] || !IsDigit(rest[0])) && (rest' == [] || !IsDigit(rest'[0]))
    ensures n == m && rest == rest'
  {
    CountDigits(n, rest);
    CountDigits(m, rest');
    assert n == (n + rest)[..|n|] && m == (m + rest')[..|m|];
    assert rest == (n + rest)[|n|..] && rest' == (m + rest')[|m|..];
  }

  lemma SameRest(front: string, x: string, y: string)
    requires front + x == front + y
    ensures x == y
  {
    assert x == (front + x)[|front|..] && y == (front + y)[|front|..];
  }

  lemma InBrackets(x: string, y: string)
    requires Brackets(x) == Brackets(y)
    ensures x == y
  {
    assert x == Brackets(x)[1..|x| + 1] && y == Brackets(y)[1..|y| + 1];
  }

  lemma SameName(s: Spelling, u: Spelling)
    requires Spelled(s) && Spelled(u) && Name(s) == Name(u)
    ensures s.Basic? ==> s == u
    ensures s.Basic? == u.Basic? && s.VectorOf? == u.VectorOf? && s.MatrixOf? == u.MatrixOf?
    ensures s.ArrayOf? == u.ArrayOf? && s.StructureOf? == u.StructureOf? && s.BufferOf? == u.BufferOf?
    ensures s.TextureOf? == u.TextureOf?
  {
    hide Numeral;
    assert Name(s)[0] == Name(u)[0] && |Name(s)| == |Name(u)|;
  }

  lemma ElementAndDimension(e: Spelling, n: string, e': Spelling, n': string)
    requires Spelled(e) && Spelled(e') && Text(e) + "," + n == Text(e') + "," + n'
    ensures Text(e) == Text(e') && n == n'
  {
    hide Text;
    assert Text(e) + "," + n == Text(e) + ("," + n);
    assert Text(e') + "," + n' == Text(e') + ("," + n');
    FirstComponent(e, e', "," + n, "," + n');
    SameRest(",", n, n');
  }

  lemma DimensionAndElement(n: string, e: Spelling, n': string, e': Spelling)
    requires Numeral(n) && Numeral(n') && n + "," + Text(e) == n' + "," + Text(e')
    ensures n == n' && Text(e) == Text(e')
  {
    hide Text, Numeral;
    assert n + "," + Text(e) == n + ("," + Text(e));
    assert n' + "," + Text(e') == n' + ("," + Text(e'));
    FirstNumeral(n, n', "," + Text(e), "," + Text(e'));
    SameRest(",", Text(e), Text(e'));
  }

  /** No two spellings have the same text. */
  lemma {:induction false} OneSpelling(s: Spelling, u: Spelling)
    requires Spelled(s) && Spelled(u) && Text(s) == Text(u)
    ensures s == u
    decreases s, 1
  {
    hide Text, Name, Inner, Brackets;
    NameReadBack(s);
    NameReadBack(u);
    SameName(s, u);
    if !s.Basic? {
      InBrackets(Inner(s), Inner(u));
      OneInner(s, u);
    }
  }

  lemma {:induction false} OneInner(s: Spelling, u: Spelling)
    requires Spelled(s) && Spelled(u) && !s.Basic? && Name(s) == Name(u) && !u.Basic? && Inner(s) == Inner(u)
    ensures s == u
    decreases s, 0
  {
    hide Text, Texts, Numeral;
    SameName(s, u);
    hide Name;
    match s
    case VectorOf(e, n) =>
      ElementAndDimension(e, n, u.elem, u.dim);
      OneSpelling(e, u.elem);
    case MatrixOf(n) =>
    case ArrayOf(e, n) =>
      ElementAndDimension(e, n, u.elem, u.dim);
      OneSpelling(e, u.elem);
    case StructureOf(a, ms) =>
      TextsEnd(ms);
      TextsEnd(u.members);
      FirstNumeral(a, u.alignment, Texts(ms), Texts(u.members));
      OneList(ms, u.members);
    case BufferOf(e) =>
      OneSpelling(e, u.elem);
    case TextureOf(n, e) =>
      DimensionAndElement(n, e, u.dim, u.elem);
      OneSpelling(e, u.elem);
  }

  lemma TextsEnd(ms: seq<Spelling>)
    ensures EndsComponent(Texts(ms)) && (Texts(ms) == [] <==> ms == [])
    ensures Texts(ms) == [] || !IsDigit(Texts(ms)[0])
  {
    hide Text;
  }

  lemma {:induction false} OneList(ms: seq<Spelling>, us: seq<Spelling>)
    requires (forall m | m in ms :: Spelled(m)) && (forall u | u in us :: Spelled(u)) && Texts(ms) == Texts(us)
    ensures ms == us
    decreases ms, 0
  {
    hide Text, Spelled;
    TextsEnd(ms);
    TextsEnd(us);
    if ms != [] {
      var rest, rest' := Texts(ms[1..]), Texts(us[1..]);
      TextsEnd(ms[1..]);
      TextsEnd(us[1..]);
      assert Texts(ms)[1..] == Text(ms[0]) + rest && Texts(us)[1..] == Text(us[0]) + rest';
      FirstComponent(ms[0], us[0], rest, rest');
      OneSpelling(ms[0], us[0]);
      OneList(ms[1..], us[1..]);
      assert ms == [ms[0]] + ms[1..] && us == [us[0]] + us[1..];
    }
  }

  // ----- The printer -----

  /** The spelling that the printer writes. */
  function Printed(t: Ty): Spelling
    decreases t, 1
  {
    match t
    case Vector(e, n) => VectorOf(Printed(e), Decimal(n))
    case Matrix(n) => MatrixOf(Decimal(n))
    case Array(e, n) => ArrayOf(Printed(e), Decimal(n))
    case Structure(a, ms) => StructureOf(Decimal(a), PrintedMembers(ms))
    case Buffer(e) => BufferOf(Printed(e))
    case Texture(n, e) => TextureOf(Decimal(n), Printed(e))
    case _ => Basic(t)
  }

  function PrintedMembers(ms: seq<Ty>): seq<Spelling>
    decreases ms, 0
  {
    if ms == [] then [] else [Printed(ms[0])] + PrintedMembers(ms[1..])
  }

  lemma {:induction false} PrintedText(t: Ty)
    ensures Text(Printed(t)) == Print(t)
    decreases t, 1
  {
    match t
    case Vector(e, n) => PrintedText(e);
    case Matrix(n) =>
    case Array(e, n) => PrintedText(e);
    case Structure(a, ms) => PrintedTexts(ms);
    case Buffer(e) => PrintedText(e);
    case Texture(n, e) => PrintedText(e);
    case _ =>
  }

  lemma {:induction false} PrintedTexts(ms: seq<Ty>)
    ensures Texts(PrintedMembers(ms)) == PrintMembers(ms)
    decreases ms, 0
  {
    hide Print, Text, Printed;
    if ms != [] {
      PrintedText(ms[0]);
      PrintedTexts(ms[1..]);
      assert PrintedMembers(ms)[1..] == PrintedMembers(ms[1..]);
    }
  }

  lemma {:induction false} PrintedMeans(t: Ty)
    requires Valid(t)
    ensures Spelled(Printed(t)) && Meaning(Printed(t)) == t
    decreases t, 1
  {
    hide Numeral, Dimension, NumberValue, Decimal, Meanings;
    match t
    case Vector(e, n) => PrintedMeans(e); PrintedNumber(n);
    case Matrix(n) => PrintedNumber(n);
    case Array(e, n) => PrintedMeans(e); PrintedNumber(n);
    case Structure(a, ms) => PrintedMembersMean(ms); PrintedNumber(a);
    case Buffer(e) => PrintedMeans(e);
    case Texture(n, e) => PrintedMeans(e); PrintedNumber(n);
    case _ =>
  }

  lemma PrintedNumber(n: nat)
    requires n < UINT
    ensures Numeral(Decimal(n)) && NumberValue(Decimal(n)) == n && Dimension(Decimal(n)) == n
  {
    DecimalIsNumeral(n);
  }

  lemma {:induction false} PrintedMembersMean(ms: seq<Ty>)
    requires forall m | m in ms :: Valid(m)
    ensures forall s | s in PrintedMembers(ms) :: Spelled(s)
    ensures Meanings(PrintedMembers(ms)) == ms
    decreases ms, 0
  {
    hide Valid, Spelled, Meaning, Printed;
    if ms != [] {
      PrintedMeans(ms[0]);
      PrintedMembersMean(ms[1..]);
      assert PrintedMembers(ms)[1..] == PrintedMembers(ms[1..]);
      assert ms == [ms[0]] + ms[1..];
    }
  }

  /** Decoding undoes printing. */
  lemma ParsePrint(t: Ty)
    requires Valid(t)
    ensures Parse(Print(t)) == Ok(t)
  {
    hide Parse, Print, Text;
    PrintedText(t);
    PrintedMeans(t);
    SpellingIsDecoded(Printed(t));
  }

  /** A dimension is cut to 32 bits: an array that is too long comes back as a shorter one. */
  lemma WideDimensionWraps(t: Ty, n: nat)
    requires Valid(t) && !t.Resource() && n < WORD
    ensures Parse(Print(Array(t, n))) == Ok(Array(t, n % UINT))
  {
    PrintedText(Array(t, n));
    PrintedMeans(t);
    DecimalIsNumeral(n);
    hide Text, Numeral, NumberValue, Decimal, Parse, Print;
    SpellingIsDecoded(ArrayOf(Printed(t), Decimal(n)));
  }

  /** The types that survive printing and decoding are exactly the valid ones. */
  lemma DecodesIffValid(t: Ty)
    ensures Parse(Print(t)) == Ok(t) <==> Valid(t)
  {
    hide Print;
    if Valid(t) {
      ParsePrint(t);
    } else {
      assert Parse(Print(t)).Ok? ==> Valid(Parse(Print(t)).value);
    }
  }

  /** Distinct types have distinct descriptions. */
  lemma PrintIsInjective(t: Ty, u: Ty)
    requires Valid(t) && Valid(u)
    ensures Print(t) == Print(u) <==> t == u
  {
    hide Print;
    ParsePrint(t);
    ParsePrint(u);
  }
}
