/**
 * Types and their descriptions: the printer of src/ast/type_registry.h, the
 * description language that TypeRegistry::_decode accepts, and type layouts
 * (src/ast/type_registry.cpp).
 */
module Types {
  import opened Integers

  /** Every error of the registry ends the program; `Err` says which one. */
  datatype Result<+T> = Ok(value: T) | Err(message: string)
  {
    predicate IsFailure() {
      Err?
    }

    function PropagateFailure<U>(): Result<U>
      requires Err?
    {
      Err(message)
    }

    function Extract(): T
      requires Ok?
    {
      value
    }
  }

  datatype Option<+T> = None | Some(value: T)

  datatype Ty =
    | Bool | Float | Int | Uint
    | Vector(elem: Ty, dim: nat)
    | Matrix(dim: nat)
    | Array(elem: Ty, dim: nat)
    | Structure(alignment: nat, members: seq<Ty>)
    | Buffer(elem: Ty)
    | Texture(dim: nat, elem: Ty)
    | BindlessArray
    | Accel
  {
    predicate Scalar() {
      Bool? || Float? || Int? || Uint?
    }

    /** Buffers and images cannot be nested in other types. */
    predicate Resource() {
      Buffer? || Texture?
    }
  }

  // ----- Layout -----

  function ScalarSize(t: Ty): nat {
    match t
    case Bool => 1
    case Float => 4
    case Int => 4
    case Uint => 4
    case _ => 0
  }

  function Align(t: Ty): nat {
    match t
    case Bool => 1
    case Float => 4
    case Int => 4
    case Uint => 4
    case Vector(e, n) => ScalarSize(e) * if n == 3 then 4 else n
    case Matrix(n) => if n == 2 then 8 else 16
    case Array(e, _) => Align(e)
    case Structure(a, _) => a
    case Buffer(_) => 8
    case Texture(_, _) => 8
    case BindlessArray => 8
    case Accel => 8
  }

  predicate AlignmentAllowed(a: nat) {
    a == 1 || a == 2 || a == 4 || a == 8 || a == 16
  }

  /** The types the registry accepts. */
  predicate Valid(t: Ty) {
    match t
    case Bool => true
    case Float => true
    case Int => true
    case Uint => true
    case Vector(e, n) => e.Scalar() && 2 <= n <= 4
    case Matrix(n) => 2 <= n <= 4
    case Array(e, n) => Valid(e) && !e.Resource() && n < UINT
    case Structure(a, ms) =>
      && AlignmentAllowed(a)
      && forall m | m in ms :: Valid(m) && !m.Resource() && Align(m) <= a
    case Buffer(e) => Valid(e) && !e.Resource()
    case Texture(n, e) => e.Scalar() && !e.Bool? && n < UINT
    case BindlessArray => true
    case Accel => true
  }

  /** (n + a - 1) / a * a on 64-bit words. */
  function RoundUp64(n: nat, a: nat): nat
    requires a > 0
  {
    var q := Wrap64(n + a - 1) / a;
    QuotientBounds(Wrap64(n + a - 1), a);
    q * a
  }

  lemma QuotientBounds(m: nat, a: nat)
    requires a > 0
    ensures 0 <= m / a * a <= m
    ensures m < m / a * a + a
  {
    var q := m / a;
    assert m == q * a + m % a by {
      assert m == a * (m / a) + m % a;
    }
    Product(q, a);
  }

  lemma Product(x: nat, y: nat)
    ensures x * y >= 0
  {
  }

  function Size(t: Ty): nat
    requires Valid(t)
    decreases t
  {
    match t
    case Bool => 1
    case Float => 4
    case Int => 4
    case Uint => 4
    case Vector(_, _) => Align(t)
    case Matrix(n) => if n == 2 then 16 else if n == 3 then 48 else 64
    case Array(e, n) => Wrap64(Size(e) * n)
    case Structure(a, ms) => RoundUp64(MembersSize(ms), a)
    case Buffer(_) => 8
    case Texture(_, _) => 8
    case BindlessArray => 8
    case Accel => 8
  }

  /** The end of the last member, before the padding at the end. */
  function MembersSize(ms: seq<Ty>): nat
    requires forall m | m in ms :: Valid(m)
    decreases ms
  {
    if ms == [] then 0 else
      var last := ms[|ms| - 1];
      ValidAlignment(last);
      Wrap64(RoundUp64(MembersSize(ms[..|ms| - 1]), Align(last)) + Size(last))
  }

  lemma {:induction false} ValidAlignment(t: Ty)
    requires Valid(t)
    ensures AlignmentAllowed(Align(t))
    decreases t
  {
    if t.Array? {
      ValidAlignment(t.elem);
    }
  }

  // ----- Descriptions -----

  function Digit(d: nat): char
    requires d < 10
  {
    '0' + d as char
  }

  /** A number in decimal. */
  function Decimal(n: nat): (s: string)
    ensures s != []
  {
    if n < 10 then [Digit(n)] else Decimal(n / 10) + [Digit(n % 10)]
  }

  function Brackets(x: string): string {
    "<" + x + ">"
  }

  function Print(t: Ty): string
    decreases t, 1
  {
    match t
    case Bool => "bool"
    case Float => "float"
    case Int => "int"
    case Uint => "uint"
    case Vector(e, n) => "vector" + Brackets(Print(e) + "," + Decimal(n))
    case Matrix(n) => "matrix" + Brackets(Decimal(n))
    case Array(e, n) => "array" + Brackets(Print(e) + "," + Decimal(n))
    case Structure(a, ms) => "struct" + Brackets(Decimal(a) + PrintMembers(ms))
    case Buffer(e) => "buffer" + Brackets(Print(e))
    case Texture(n, e) => "texture" + Brackets(Decimal(n) + "," + Print(e))
    case BindlessArray => "bindless_array"
    case Accel => "accel"
  }

  function PrintMembers(ms: seq<Ty>): string
    decreases ms, 0
  {
    if ms == [] then "" else "," + Print(ms[0]) + PrintMembers(ms[1..])
  }

  predicate IsDigit(c: char) {
    '0' <= c <= '9'
  }

  predicate InIdentifier(c: char) {
    'a' <= c <= 'z' || 'A' <= c <= 'Z' || c == '_'
  }

  function IdentifierLength(s: string): (n: nat)
    ensures n <= |s|
  {
    if s != [] && InIdentifier(s[0]) then 1 + IdentifierLength(s[1..]) else 0
  }

  function DigitCount(s: string): (n: nat)
    ensures n <= |s|
    ensures forall i | 0 <= i < n :: IsDigit(s[i])
  {
    if s != [] && IsDigit(s[0]) then 1 + DigitCount(s[1..]) else 0
  }

  function DigitValue(c: char): nat
    requires IsDigit(c)
  {
    c as int - '0' as int
  }

  function NumberValue(s: string): nat
    requires forall i | 0 <= i < |s| :: IsDigit(s[i])
  {
    if s == [] then 0 else
      NumberValue(s[..|s| - 1]) * 10 + DigitValue(s[|s| - 1])
  }

  /** A number read from the front, and the text behind it. */
  function ReadNumber(s: string): (r: Result<(nat, string)>)
    ensures r.Ok? ==> |r.value.1| < |s| && r.value.0 < WORD
  {
    var n := DigitCount(s);
    if n == 0 || NumberValue(s[..n]) >= WORD then Err("Failed to parse number")
    else Ok((NumberValue(s[..n]), s[n..]))
  }

  function Match(s: string, c: char): (r: Result<string>)
    ensures r.Ok? ==> |r.value| < |s|
  {
    if s != [] && s[0] == c then Ok(s[1..]) else Err("Expected another character")
  }

  /** The number of characters `split` takes off the front; none if the brackets do not balance. */
  function SplitLength(s: string, balance: nat): (n: Result<nat>)
    ensures n.Ok? ==> n.value <= |s|
    decreases |s|
  {
    if s == [] then
      if balance == 0 then Ok(0) else Err("Unbalanced '<' and '>'")
    else if s[0] == '<' then
      Longer(SplitLength(s[1..], balance + 1))
    else if s[0] == '>' then
      if balance == 0 then Ok(0)
      else if balance == 1 then Ok(1)
      else Longer(SplitLength(s[1..], balance - 1))
    else if s[0] == ',' && balance == 0 then
      Ok(0)
    else
      Longer(SplitLength(s[1..], balance))
  }

  function Longer(n: Result<nat>): Result<nat> {
    if n.Ok? then Ok(n.value + 1) else n
  }

  /** The next component's text and the text behind it. */
  function Split(s: string): (r: Result<(string, string)>)
    ensures r.Ok? ==> r.value.0 + r.value.1 == s
  {
    var n := SplitLength(s, 0);
    if n.Err? then Err(n.message) else Ok((s[..n.value], s[n.value..]))
  }

  // ----- Decoding -----

  function Parse(desc: string): (r: Result<Ty>)
    ensures r.Ok? ==> Valid(r.value)
    decreases |desc|, 2
  {
    var n := IdentifierLength(desc);
    var identifier := desc[..n];
    var rest := desc[n..];
    if identifier == "bool" then Whole(Bool, rest)
    else if identifier == "float" then Whole(Float, rest)
    else if identifier == "int" then Whole(Int, rest)
    else if identifier == "uint" then Whole(Uint, rest)
    else if identifier == "vector" then ParseVector(rest)
    else if identifier == "matrix" then ParseMatrix(rest)
    else if identifier == "array" then ParseArray(rest)
    else if identifier == "struct" then ParseStructure(rest)
    else if identifier == "buffer" then ParseBuffer(rest)
    else if identifier == "texture" then ParseTexture(rest)
    else if identifier == "bindless_array" then Whole(BindlessArray, rest)
    else if identifier == "accel" then Whole(Accel, rest)
    else Err("Unknown type identifier")
  }

  function Whole(t: Ty, rest: string): (r: Result<Ty>)
    ensures r.Ok? ==> r.value == t && rest == []
  {
    if rest == [] then Ok(t) else Err("Found junk after type description")
  }

  /** A dimension is kept in 32 bits. */
  function ReadDimension(s: string): (r: Result<(nat, string)>)
    ensures r.Ok? ==> |r.value.1| < |s| && r.value.0 < UINT
  {
    var n :- ReadNumber(s);
    Ok((Wrap32(n.0), n.1))
  }

  function ParseVector(s: string): (r: Result<Ty>)
    ensures r.Ok? ==> Valid(r.value)
    decreases |s|, 1
  {
    var s1 :- Match(s, '<');
    var p :- Split(s1);
    var e :- Parse(p.0);
    var s2 :- Match(p.1, ',');
    var d :- ReadDimension(s2);
    var s3 :- Match(d.1, '>');
    if !e.Scalar() then Err("Invalid vector element")
    else if d.0 != 2 && d.0 != 3 && d.0 != 4 then Err("Invalid vector dimension")
    else Whole(Vector(e, d.0), s3)
  }

  function ParseMatrix(s: string): (r: Result<Ty>)
    ensures r.Ok? ==> Valid(r.value)
  {
    var s1 :- Match(s, '<');
    var d :- ReadDimension(s1);
    var s2 :- Match(d.1, '>');
    if d.0 != 2 && d.0 != 3 && d.0 != 4 then Err("Invalid matrix dimension")
    else Whole(Matrix(d.0), s2)
  }

  function ParseArray(s: string): (r: Result<Ty>)
    ensures r.Ok? ==> Valid(r.value)
    decreases |s|, 1
  {
    var s1 :- Match(s, '<');
    var p :- Split(s1);
    var e :- Parse(p.0);
    var s2 :- Match(p.1, ',');
    var d :- ReadDimension(s2);
    var s3 :- Match(d.1, '>');
    if e.Resource() then Err("Arrays are not allowed to hold buffers or images")
    else Whole(Array(e, d.0), s3)
  }

  function ParseStructure(s: string): (r: Result<Ty>)
    ensures r.Ok? ==> Valid(r.value)
    decreases |s|, 1
  {
    var s1 :- Match(s, '<');
    var a :- ReadNumber(s1);
    var ms :- ParseMembers(a.1);
    var s2 :- Match(ms.1, '>');
    if exists m | m in ms.0 :: m.Resource() then
      Err("Structures are not allowed to have buffers or images as members")
    else if a.0 == 0 then
      Err("Division by zero")
    else if !AlignmentAllowed(a.0) then
      Err("Invalid structure alignment")
    else if exists m | m in ms.0 :: a.0 < Align(m) then
      Err("Struct alignment is smaller than the largest member alignment")
    else
      Whole(Structure(a.0, ms.0), s2)
  }

  function ParseMembers(s: string): (r: Result<(seq<Ty>, string)>)
    ensures r.Ok? ==> forall m | m in r.value.0 :: Valid(m)
    decreases |s|, 0
  {
    if s == [] || s[0] != ',' then Ok(([], s)) else
      var p :- Split(s[1..]);
      var m :- Parse(p.0);
      assert |p.0 + p.1| == |s[1..]|;
      var ms :- ParseMembers(p.1);
      Ok(([m] + ms.0, ms.1))
  }

  function ParseBuffer(s: string): (r: Result<Ty>)
    ensures r.Ok? ==> Valid(r.value)
    decreases |s|, 1
  {
    var s1 :- Match(s, '<');
    var p :- Split(s1);
    var e :- Parse(p.0);
    var s2 :- Match(p.1, '>');
    if e.Resource() then Err("Buffers are not allowed to hold buffers or images")
    else Whole(Buffer(e), s2)
  }

  function ParseTexture(s: string): (r: Result<Ty>)
    ensures r.Ok? ==> Valid(r.value)
    decreases |s|, 1
  {
    var s1 :- Match(s, '<');
    var d :- ReadDimension(s1);
    var s2 :- Match(d.1, ',');
    var p :- Split(s2);
    var e :- Parse(p.0);
    var s3 :- Match(p.1, '>');
    if !e.Int? && !e.Uint? && !e.Float? then Err("Images can only hold int, uint, or float")
    else Whole(Texture(d.0, e), s3)
  }
}
