/**
 * The registry of types (src/ast/type_registry.{h,cpp}): a memoising recursive-descent
 * decoder of descriptions. The i-th type is types[i]; a pointer to a type is its index.
 * Descriptions stand for their hashes.
 */
module TypeRegistry {
  import opened Integers
  import opened Types
  import opened Descriptions
  import Layout
  import Words

  datatype Tag =
    | BoolTag | FloatTag | IntTag | UintTag | VectorTag | MatrixTag | ArrayTag | StructureTag
    | BufferTag | TextureTag | BindlessArrayTag | AccelTag
  {
    predicate Scalar() {
      BoolTag? || FloatTag? || IntTag? || UintTag?
    }

    predicate Resource() {
      BufferTag? || TextureTag?
    }
  }

  datatype Info = Info(
    description: string, index: nat, tag: Tag,
    size: nat, alignment: nat, dimension: nat, members: seq<nat>)

  /** What one node says, apart from its members. */
  function TagOf(t: Ty): Tag {
    match t
    case Bool => BoolTag
    case Float => FloatTag
    case Int => IntTag
    case Uint => UintTag
    case Vector(_, _) => VectorTag
    case Matrix(_) => MatrixTag
    case Array(_, _) => ArrayTag
    case Structure(_, _) => StructureTag
    case Buffer(_) => BufferTag
    case Texture(_, _) => TextureTag
    case BindlessArray => BindlessArrayTag
    case Accel => AccelTag
  }

  function DimensionOf(t: Ty): nat {
    match t
    case Vector(_, n) => n
    case Matrix(n) => n
    case Array(_, n) => n
    case Texture(n, _) => n
    case _ => 0
  }

  function MembersOf(t: Ty): seq<Ty> {
    match t
    case Vector(e, _) => [e]
    case Matrix(_) => [Float]
    case Array(e, _) => [e]
    case Structure(_, ms) => ms
    case Buffer(e) => [e]
    case Texture(_, e) => [e]
    case _ => []
  }

  /** The node stands for t, given what the types it points to stand for. */
  ghost predicate StandsFor(info: Info, t: Ty, meaning: seq<Ty>) {
    && Valid(t)
    && info.tag == TagOf(t)
    && info.size == Size(t)
    && info.alignment == Align(t)
    && info.dimension == DimensionOf(t)
    && PointTo(info.members, MembersOf(t), meaning)
  }

  ghost predicate PointTo(members: seq<nat>, ts: seq<Ty>, meaning: seq<Ty>) {
    && |members| == |ts|
    && forall k | 0 <= k < |ts| :: members[k] < |meaning| && meaning[members[k]] == ts[k]
  }

  /** One node for each description, at its own index, members before their containers. */
  ghost predicate Consistent(types: seq<Info>, typeSet: map<string, nat>, meaning: seq<Ty>) {
    && |meaning| == |types|
    && (forall i | 0 <= i < |types| ::
          && types[i].index == i
          && types[i].description in typeSet
          && typeSet[types[i].description] == i)
    && (forall d | d in typeSet :: typeSet[d] < |types| && types[typeSet[d]].description == d)
    && forall i | 0 <= i < |types| ::
         && Parse(types[i].description) == Ok(meaning[i])
         && StandsFor(types[i], meaning[i], meaning[..i])
  }

  lemma SameLength(types: seq<Info>, typeSet: map<string, nat>, meaning: seq<Ty>)
    requires Consistent(types, typeSet, meaning)
    ensures |types| == |meaning|
  {
  }

  lemma StandsAtIndex(info: Info, i: nat, t: Ty, meaning: seq<Ty>)
    requires StandsFor(info, t, meaning)
    ensures StandsFor(info.(index := i), t, meaning)
  {
  }

  lemma ConsistentAfter(types: seq<Info>, typeSet: map<string, nat>, meaning: seq<Ty>, node: Info, t: Ty)
    requires Consistent(types, typeSet, meaning)
    requires Parse(node.description) == Ok(t) && StandsFor(node, t, meaning)
    requires node.index == |types| && node.description !in typeSet
    ensures Consistent(types + [node], typeSet[node.description := |types|], meaning + [t])
  {
    hide Parse, StandsFor;
    var types' := types + [node];
    var meaning' := meaning + [t];
    assert meaning'[..|types|] == meaning;
    forall i: nat | i < |types'|
      ensures Parse(types'[i].description) == Ok(meaning'[i])
      ensures StandsFor(types'[i], meaning'[i], meaning'[..i])
    {
      assert i < |types| ==> meaning'[..i] == meaning[..i];
    }
  }

  lemma NodeFacts(types: seq<Info>, typeSet: map<string, nat>, meaning: seq<Ty>, i: nat)
    requires Consistent(types, typeSet, meaning) && i < |types|
    ensures |meaning| == |types|
    ensures Types.Valid(meaning[i]) && types[i].tag == TagOf(meaning[i])
    ensures types[i].size == Size(meaning[i]) && types[i].alignment == Align(meaning[i])
    ensures types[i].tag.Scalar() == meaning[i].Scalar() && types[i].tag.Resource() == meaning[i].Resource()
  {
    assert StandsFor(types[i], meaning[i], meaning[..i]);
  }

  lemma Found(types: seq<Info>, typeSet: map<string, nat>, meaning: seq<Ty>, desc: string)
    requires Consistent(types, typeSet, meaning) && desc in typeSet
    ensures typeSet[desc] < |types| == |meaning| && types[typeSet[desc]].description == desc
    ensures Parse(desc) == Ok(meaning[typeSet[desc]])
  {
    hide Parse, StandsFor;
  }

  lemma MakesTexture(info: Info, e: Ty, meaning: seq<Ty>)
    requires e.Int? || e.Uint? || e.Float?
    requires info.tag == TextureTag && info.size == 8 && info.alignment == 8 && info.dimension < UINT
    requires |info.members| == 1 && info.members[0] < |meaning| && meaning[info.members[0]] == e
    ensures StandsFor(info, Texture(info.dimension, e), meaning)
  {
  }

  lemma ArrayLayout(e: Ty, n: nat)
    requires Types.Valid(Array(e, n))
    ensures Size(Array(e, n)) == Wrap64(Size(e) * n) && Align(Array(e, n)) == Align(e)
  {
  }

  lemma AlignmentPositive(a: nat)
    requires AlignmentAllowed(a)
    ensures a > 0
  {
  }

  lemma StructureLayout(a: nat, ms: seq<Ty>)
    requires Layout.AllValid(ms) && AlignmentAllowed(a)
    requires forall m | m in ms :: !m.Resource() && Align(m) <= a
    ensures Types.Valid(Structure(a, ms))
    ensures Size(Structure(a, ms)) == RoundUp64(MembersSize(ms), a) && Align(Structure(a, ms)) == a
  {
  }

  lemma MakesNode(info: Info, t: Ty, meaning: seq<Ty>)
    requires Types.Valid(t) && info.tag == TagOf(t) && info.size == Size(t) && info.alignment == Align(t)
    requires info.dimension == DimensionOf(t) && PointTo(info.members, MembersOf(t), meaning)
    ensures StandsFor(info, t, meaning)
  {
  }

  lemma FloatParses()
    ensures Parse("float") == Ok(Float)
  {
    assert Print(Float) == "float";
    ParsePrint(Float);
  }

  class TypeRegistry {
    var types: seq<Info>
    var typeSet: map<string, nat>

    /** The type each node stands for. */
    ghost var meaning: seq<Ty>

    ghost predicate Valid()
      reads this
    {
      Consistent(types, typeSet, meaning)
    }

    constructor ()
      ensures Valid() && types == []
    {
      types, typeSet, meaning := [], map[], [];
    }

    /** Nodes were only appended, and only for descriptions shorter than n. */
    ghost predicate Grew(types0: seq<Info>, meaning0: seq<Ty>, typeSet0: map<string, nat>, n: nat)
      reads this
    {
      && types0 <= types
      && meaning0 <= meaning
      && forall d | d in typeSet :: d in typeSet0 || |d| < n
    }

    method Register(info: Info, ghost t: Ty) returns (i: nat)
      requires Valid()
      requires Parse(info.description) == Ok(t) && StandsFor(info, t, meaning)
      requires info.description !in typeSet
      modifies this
      ensures Valid()
      ensures i == |old(types)| == |old(meaning)|
      ensures types == old(types) + [info.(index := i)] && meaning == old(meaning) + [t]
      ensures typeSet == old(typeSet)[info.description := i]
    {
      hide Parse, StandsFor, Consistent;
      var node := info.(index := |types|);
      SameLength(types, typeSet, meaning);
      StandsAtIndex(info, |types|, t, meaning);
      ConsistentAfter(types, typeSet, meaning, node, t);
      if node.description !in typeSet {
        typeSet := typeSet[node.description := |types|];
        types := types + [node];
        meaning := meaning + [t];
      }
      return typeSet[node.description];
    }

    /** `Parse` with memo: the node found or made stands for what the description says. */
    method Decode(desc: string) returns (r: Result<nat>)
      requires Valid()
      modifies this
      ensures Valid() && Grew(old(types), old(meaning), old(typeSet), |desc| + 1)
      ensures r.Ok? <==> Parse(desc).Ok?
      ensures r.Ok? ==>
                && r.value < |types| == |meaning|
                && types[r.value].description == desc && meaning[r.value] == Parse(desc).value
      ensures forall d | d in typeSet && d !in old(typeSet) :: |d| < |desc| || d == desc
      ensures desc in old(typeSet) ==> types == old(types) && r == Ok(old(typeSet)[desc])
      ensures desc !in old(typeSet) && r.Ok? ==> r.value == |types| - 1 >= |old(types)|
      decreases |desc|, 3
    {
      hide Parse, Consistent, StandsFor;
      if desc in typeSet {
        Found(types, typeSet, meaning, desc);
        return Ok(typeSet[desc]);
      }
      var info :- DecodeNode(desc);
      assert |old(types)| <= |types|;
      var i := Register(info, Parse(desc).value);
      return Ok(i);
    }

    method DecodeNode(desc: string) returns (r: Result<Info>)
      requires Valid()
      modifies this
      ensures Valid() && Grew(old(types), old(meaning), old(typeSet), |desc|)
      ensures r.Ok? <==> Parse(desc).Ok?
      ensures r.Ok? ==> r.value.description == desc && StandsFor(r.value, Parse(desc).value, meaning)
      decreases |desc|, 2
    {
      hide Consistent, StandsFor, ParseVector, ParseMatrix, ParseArray, ParseStructure, ParseBuffer;
      hide ParseTexture, IdentifierLength;
      var n := IdentifierLength(desc);
      var identifier := desc[..n];
      var cursor := desc[n..];
      if identifier == "bool" {
        r := DecodeBasic(Info(desc, 0, BoolTag, 1, 1, 0, []), cursor, Bool);
      } else if identifier == "float" {
        r := DecodeBasic(Info(desc, 0, FloatTag, 4, 4, 0, []), cursor, Float);
      } else if identifier == "int" {
        r := DecodeBasic(Info(desc, 0, IntTag, 4, 4, 0, []), cursor, Int);
      } else if identifier == "uint" {
        r := DecodeBasic(Info(desc, 0, UintTag, 4, 4, 0, []), cursor, Uint);
      } else if identifier == "vector" {
        r := DecodeVector(desc, cursor);
      } else if identifier == "matrix" {
        r := DecodeMatrix(desc, cursor);
      } else if identifier == "array" {
        r := DecodeArray(desc, cursor);
      } else if identifier == "struct" {
        r := DecodeStructure(desc, cursor);
      } else if identifier == "buffer" {
        r := DecodeBuffer(desc, cursor);
      } else if identifier == "texture" {
        r := DecodeTexture(desc, cursor);
      } else if identifier == "bindless_array" {
        r := DecodeBasic(Info(desc, 0, BindlessArrayTag, 8, 8, 0, []), cursor, BindlessArray);
      } else if identifier == "accel" {
        r := DecodeBasic(Info(desc, 0, AccelTag, 8, 8, 0, []), cursor, Accel);
      } else {
        r := Err("Unknown type identifier");
      }
    }

    method DecodeBasic(node: Info, cursor: string, ghost t: Ty) returns (r: Result<Info>)
      requires !Bracketed(t) && node.tag == TagOf(t) && node.members == []
      requires node.size == Size(t) && node.alignment == Align(t) && node.dimension == 0
      ensures r.Ok? <==> Whole(t, cursor).Ok?
      ensures r.Ok? ==> r.value == node && StandsFor(node, t, meaning)
    {
      if cursor != [] {
        return Err("Found junk after type description");
      }
      return Ok(node);
    }

    method DecodeVector(desc: string, cursor: string) returns (r: Result<Info>)
      requires Valid() && |cursor| < |desc|
      modifies this
      ensures Valid() && Grew(old(types), old(meaning), old(typeSet), |desc|)
      ensures r.Ok? <==> ParseVector(cursor).Ok?
      ensures r.Ok? ==> r.value.description == desc && StandsFor(r.value, ParseVector(cursor).value, meaning)
      decreases |desc|, 1
    {
      hide Parse, Match, Split, ReadDimension, Consistent, StandsFor;
      var s1 :- Match(cursor, '<');
      var p :- Split(s1);
      var m :- Decode(p.0);
      var s2 :- Match(p.1, ',');
      var d :- ReadDimension(s2);
      var s3 :- Match(d.1, '>');
      NodeFacts(types, typeSet, meaning, m);
      var elem := types[m];
      if !elem.tag.Scalar() {
        return Err("Invalid vector element");
      }
      if d.0 != 2 && d.0 != 3 && d.0 != 4 {
        return Err("Invalid vector dimension");
      }
      var size := elem.size * if d.0 == 3 then 4 else d.0;
      var info := Info(desc, 0, VectorTag, size, size, d.0, [m]);
      MakesNode(info, Vector(meaning[m], d.0), meaning);
      r := Closed(info, s3);
    }

    method DecodeMatrix(desc: string, cursor: string) returns (r: Result<Info>)
      requires Valid() && |cursor| < |desc| && |desc| >= 6
      modifies this
      ensures Valid() && Grew(old(types), old(meaning), old(typeSet), |desc|)
      ensures r.Ok? <==> ParseMatrix(cursor).Ok?
      ensures r.Ok? ==> r.value.description == desc && StandsFor(r.value, ParseMatrix(cursor).value, meaning)
      decreases |desc|, 1
    {
      hide Parse, Match, Split, ReadDimension, Consistent, StandsFor;
      var s1 :- Match(cursor, '<');
      var d :- ReadDimension(s1);
      var s2 :- Match(d.1, '>');
      var float := "float";
      assert Parse(float) == Ok(Float) by { FloatParses(); }
      var decoded := Decode(float);
      var m := decoded.value;
      var info := Info(desc, 0, MatrixTag, 0, 0, d.0, [m]);
      if d.0 == 2 {
        info := info.(size := 16, alignment := 8);
      } else if d.0 == 3 {
        info := info.(size := 48, alignment := 16);
      } else if d.0 == 4 {
        info := info.(size := 64, alignment := 16);
      } else {
        return Err("Invalid matrix dimension");
      }
      MakesNode(info, Matrix(d.0), meaning);
      r := Closed(info, s2);
    }

    method DecodeArray(desc: string, cursor: string) returns (r: Result<Info>)
      requires Valid() && |cursor| < |desc|
      modifies this
      ensures Valid() && Grew(old(types), old(meaning), old(typeSet), |desc|)
      ensures r.Ok? <==> ParseArray(cursor).Ok?
      ensures r.Ok? ==> r.value.description == desc && StandsFor(r.value, ParseArray(cursor).value, meaning)
      decreases |desc|, 1
    {
      hide Size, Align, Wrap64, Parse, Match, Split, ReadDimension, Consistent, StandsFor;
      var s1 :- Match(cursor, '<');
      var p :- Split(s1);
      var m :- Decode(p.0);
      var s2 :- Match(p.1, ',');
      var d :- ReadDimension(s2);
      var s3 :- Match(d.1, '>');
      NodeFacts(types, typeSet, meaning, m);
      var elem := types[m];
      if elem.tag.Resource() {
        return Err("Arrays are not allowed to hold buffers or images");
      }
      ArrayLayout(meaning[m], d.0);
      var info := Info(desc, 0, ArrayTag, Wrap64(elem.size * d.0), elem.alignment, d.0, [m]);
      MakesNode(info, Array(meaning[m], d.0), meaning);
      r := Closed(info, s3);
    }

    method DecodeBuffer(desc: string, cursor: string) returns (r: Result<Info>)
      requires Valid() && |cursor| < |desc|
      modifies this
      ensures Valid() && Grew(old(types), old(meaning), old(typeSet), |desc|)
      ensures r.Ok? <==> ParseBuffer(cursor).Ok?
      ensures r.Ok? ==> r.value.description == desc && StandsFor(r.value, ParseBuffer(cursor).value, meaning)
      decreases |desc|, 1
    {
      hide Parse, Match, Split, ReadDimension, Consistent, StandsFor;
      var s1 :- Match(cursor, '<');
      var p :- Split(s1);
      var m :- Decode(p.0);
      var s2 :- Match(p.1, '>');
      NodeFacts(types, typeSet, meaning, m);
      if types[m].tag.Resource() {
        return Err("Buffers are not allowed to hold buffers or images");
      }
      var info := Info(desc, 0, BufferTag, 8, 8, 0, [m]);
      MakesNode(info, Buffer(meaning[m]), meaning);
      r := Closed(info, s2);
    }

    method DecodeTexture(desc: string, cursor: string) returns (r: Result<Info>)
      requires Valid() && |cursor| < |desc|
      modifies this
      ensures Valid() && Grew(old(types), old(meaning), old(typeSet), |desc|)
      ensures r.Ok? <==> ParseTexture(cursor).Ok?
      ensures r.Ok? ==> r.value.description == desc && StandsFor(r.value, ParseTexture(cursor).value, meaning)
      decreases |desc|, 1
    {
      hide Wrap32, TagOf, PointTo, Size, Align, Types.Valid, Parse, Match, Split, ReadDimension, Consistent;
      hide StandsFor;
      var s1 :- Match(cursor, '<');
      var d :- ReadDimension(s1);
      var s2 :- Match(d.1, ',');
      var p :- Split(s2);
      var m :- Decode(p.0);
      var s3 :- Match(p.1, '>');
      NodeFacts(types, typeSet, meaning, m);
      var tag := types[m].tag;
      var info :- MakeTexture(desc, tag, d.0, m, meaning[m]);
      r := Closed(info, s3);
    }

    method MakeTexture(desc: string, tag: Tag, n: nat, m: nat, ghost e: Ty) returns (r: Result<Info>)
      requires tag == TagOf(e) && n < UINT && m < |meaning| && meaning[m] == e
      ensures r.Ok? <==> e.Int? || e.Uint? || e.Float?
      ensures r.Ok? ==> r.value.description == desc && StandsFor(r.value, Texture(n, e), meaning)
    {
      if tag != IntTag && tag != UintTag && tag != FloatTag {
        return Err("Images can only hold int, uint, or float");
      }
      var info := Info(desc, 0, TextureTag, 8, 8, n, [m]);
      MakesTexture(info, e, meaning);
      return Ok(info);
    }

    method DecodeStructure(desc: string, cursor: string) returns (r: Result<Info>)
      requires Valid() && |cursor| < |desc|
      modifies this
      ensures Valid() && Grew(old(types), old(meaning), old(typeSet), |desc|)
      ensures r.Ok? <==> ParseStructure(cursor).Ok?
      ensures r.Ok? ==> r.value.description == desc && StandsFor(r.value, ParseStructure(cursor).value, meaning)
      decreases |desc|, 1
    {
      hide Parse, Match, ParseMembers, ReadNumber, Consistent, StandsFor, PointTo, Types.Valid, Size, Align;
      hide MembersSize;
      var s1 :- Match(cursor, '<');
      var a :- ReadNumber(s1);
      var ms :- DecodeMembers(desc, a.1);
      var s2 :- Match(ms.1, '>');
      ghost var ts := ParseMembers(a.1).value.0;
      var layout :- LayOut(ms.0, ts);
      if a.0 > 16 || (a.0 != 0 && !AlignmentAllowed(a.0)) {
        return Err("Invalid structure alignment");
      }
      if a.0 < layout.1 && a.0 != 0 {
        return Err("Struct alignment is smaller than the largest member alignment");
      }
      if a.0 == 0 {
        return Err("Division by zero");
      }
      var info := Info(desc, 0, StructureTag, RoundUp64(layout.0, a.0), a.0, 0, ms.0);
      StructureLayout(a.0, ts);
      MakesNode(info, Structure(a.0, ts), meaning);
      r := Closed(info, s2);
    }

    /** The size without the padding at the end, and the largest alignment. */
    method LayOut(members: seq<nat>, ghost ts: seq<Ty>) returns (r: Result<(nat, nat)>)
      requires Valid() && PointTo(members, ts, meaning) && Layout.AllValid(ts)
      ensures r.Ok? <==> forall t | t in ts :: !t.Resource()
      ensures r.Ok? ==> r.value.0 == MembersSize(ts)
      ensures r.Ok? ==> forall t | t in ts :: Align(t) <= r.value.1
      ensures r.Ok? ==> r.value.1 == 0 || exists t | t in ts :: Align(t) == r.value.1
    {
      hide Parse, Consistent, Types.Valid, Size, Align, RoundUp64, Wrap64;
      var size := 0;
      var maxAlignment := 0;
      for k := 0 to |members|
        invariant size == MembersSize(ts[..k])
        invariant forall t | t in ts[..k] :: !t.Resource() && Align(t) <= maxAlignment
        invariant maxAlignment == 0 || exists t | t in ts[..k] :: Align(t) == maxAlignment
      {
        SameLength(types, typeSet, meaning);
        NodeFacts(types, typeSet, meaning, members[k]);
        ValidAlignment(ts[k]);
        assert ts[..k + 1] == ts[..k] + [ts[k]];
        var member := types[members[k]];
        if member.tag.Resource() {
          return Err("Structures are not allowed to have buffers or images as members");
        }
        var ma := member.alignment;
        if ma > maxAlignment {
          maxAlignment := ma;
        }
        AlignmentPositive(ma);
        size := Wrap64(RoundUp64(size, ma) + member.size);
      }
      assert ts[..|members|] == ts;
      return Ok((size, maxAlignment));
    }

    /** The loop over ",TYPE". */
    method DecodeMembers(desc: string, start: string) returns (r: Result<(seq<nat>, string)>)
      requires Valid() && |start| < |desc|
      modifies this
      ensures Valid() && Grew(old(types), old(meaning), old(typeSet), |desc|)
      ensures r.Ok? <==> ParseMembers(start).Ok?
      ensures r.Ok? ==>
                && PointTo(r.value.0, ParseMembers(start).value.0, meaning)
                && r.value.1 == ParseMembers(start).value.1
      decreases |desc|, 0
    {
      hide Parse, Split, Consistent;
      var cursor := start;
      var members: seq<nat> := [];
      ghost var done: seq<Ty> := [];
      BehindNone(ParseMembers(start));
      while cursor != [] && cursor[0] == ','
        invariant Valid() && Grew(old(types), old(meaning), old(typeSet), |desc|)
        invariant |cursor| < |desc|
        invariant PointTo(members, done, meaning)
        invariant ParseMembers(start) == Behind(done, ParseMembers(cursor))
        decreases |cursor|
      {
        var p :- Split(cursor[1..]);
        var m :- Decode(p.0);
        assert |p.0 + p.1| == |cursor[1..]|;
        BehindOne(done, meaning[m], ParseMembers(p.1));
        members := members + [m];
        done := done + [meaning[m]];
        cursor := p.1;
      }
      return Ok((members, cursor));
    }

    method TypeFrom(desc: string) returns (r: Result<Option<nat>>)
      requires Valid()
      modifies this
      ensures Valid() && Grew(old(types), old(meaning), old(typeSet), |desc| + 1)
      ensures desc == "void" ==> r == Ok(None) && types == old(types)
      ensures desc != "void" ==> (r.Ok? <==> Parse(desc).Ok?)
      ensures desc != "void" && r.Ok? ==>
                && r.value.Some?
                && var i := r.value.value;
                   i < |types| == |meaning| && types[i].description == desc && meaning[i] == Parse(desc).value
    {
      hide Parse, Consistent;
      if desc == "void" {
        return Ok(None);
      }
      var i :- Decode(desc);
      return Ok(Some(i));
    }

    /** Any valid type is found under its description, whatever the registry already holds. */
    method TypeOf(t: Ty) returns (i: nat)
      requires Valid() && Types.Valid(t)
      modifies this
      ensures Valid() && Grew(old(types), old(meaning), old(typeSet), |Print(t)| + 1)
      ensures i < |types| == |meaning| && types[i].description == Print(t) && meaning[i] == t
    {
      hide Parse, Print, Consistent;
      ParsePrint(t);
      var r := Decode(Print(t));
      return r.value;
    }
  }

  /** A list of members read after `done`. */
  function Behind(done: seq<Ty>, r: Result<(seq<Ty>, string)>): Result<(seq<Ty>, string)> {
    if r.Ok? then Ok((done + r.value.0, r.value.1)) else r
  }

  lemma BehindNone(r: Result<(seq<Ty>, string)>)
    ensures Behind([], r) == r
  {
    if r.Ok? {
      assert [] + r.value.0 == r.value.0;
    }
  }

  lemma BehindOne(done: seq<Ty>, m: Ty, r: Result<(seq<Ty>, string)>)
    ensures Behind(done, Behind([m], r)) == Behind(done + [m], r)
  {
    if r.Ok? {
      assert done + ([m] + r.value.0) == done + [m] + r.value.0;
    }
  }

  function Closed(info: Info, rest: string): Result<Info> {
    if rest == [] then Ok(info) else Err("Found junk after type description")
  }

  /** Two nodes with the same description are the same node. */
  lemma OneNodePerDescription(types: seq<Info>, typeSet: map<string, nat>, meaning: seq<Ty>, i: nat, j: nat)
    requires Consistent(types, typeSet, meaning) && i < |types| && j < |types|
    ensures types[i].description == types[j].description <==> i == j
    ensures types[i].index == i
  {
  }

  /** Members come before the types they are part of, so that the types form no cycle. */
  lemma MembersComeFirst(types: seq<Info>, typeSet: map<string, nat>, meaning: seq<Ty>, i: nat, k: nat)
    requires Consistent(types, typeSet, meaning) && i < |types| && k < |types[i].members|
    ensures types[i].members[k] < i
    ensures k < |MembersOf(meaning[i])| && meaning[types[i].members[k]] == MembersOf(meaning[i])[k]
  {
    assert StandsFor(types[i], meaning[i], meaning[..i]);
  }

  /** Every node's alignment is a power of two up to 16 that divides its size. */
  lemma NodeLayout(types: seq<Info>, typeSet: map<string, nat>, meaning: seq<Ty>, i: nat)
    requires Consistent(types, typeSet, meaning) && i < |types|
    ensures AlignmentAllowed(types[i].alignment) && types[i].size % types[i].alignment == 0
  {
    NodeFacts(types, typeSet, meaning, i);
    Layout.SizeIsMultiple(meaning[i]);
  }

  /** The nodes that a node points to. */
  function MemberNodes(types: seq<Info>, i: nat): (r: seq<Info>)
    requires i < |types| && forall k | 0 <= k < |types[i].members| :: types[i].members[k] < |types|
    ensures |r| == |types[i].members| && forall k | 0 <= k < |r| :: r[k] == types[types[i].members[k]]
  {
    seq(|types[i].members|, k requires 0 <= k < |types[i].members| => types[types[i].members[k]])
  }

  /** The layout of a node in terms of the nodes it points to. */
  ghost predicate LaidOut(node: Info, ms: seq<Info>) {
    match node.tag
    case BoolTag => ms == [] && Words.Pow2(8 * node.size) == 0x100 && node.alignment == node.size
    case FloatTag => ms == [] && Words.Pow2(8 * node.size) == UINT && node.alignment == node.size
    case IntTag => ms == [] && Words.Pow2(8 * node.size) == UINT && node.alignment == node.size
    case UintTag => ms == [] && Words.Pow2(8 * node.size) == UINT && node.alignment == node.size
    case VectorTag =>
      && |ms| == 1 && ms[0].tag.Scalar() && 2 <= node.dimension <= 4
      && Words.LeastPow2AtLeast(node.size, node.dimension * ms[0].size) && node.alignment == node.size
    case MatrixTag =>
      && |ms| == 1 && ms[0].tag.FloatTag? && 2 <= node.dimension <= 4
      && Words.LeastPow2AtLeast(node.alignment, node.dimension * ms[0].size)
      && node.size == node.dimension * node.alignment
    case ArrayTag =>
      && |ms| == 1 && !ms[0].tag.Resource() && node.alignment == ms[0].alignment
      && node.size == Wrap64(Layout.Bytes(node.dimension, ms[0].size))
    case StructureTag =>
      && (forall k | 0 <= k < |ms| :: !ms[k].tag.Resource() && ms[k].alignment <= node.alignment)
      && exists offsets, size ::
           Layout.Packed(offsets, Sizes(ms), Alignments(ms), size, node.alignment) && node.size == Wrap64(size)
    case BufferTag =>
      |ms| == 1 && !ms[0].tag.Resource() && Words.Pow2(8 * node.size) == WORD && node.alignment == node.size
    case TextureTag =>
      && |ms| == 1 && (ms[0].tag.IntTag? || ms[0].tag.UintTag? || ms[0].tag.FloatTag?)
      && Words.Pow2(8 * node.size) == WORD && node.alignment == node.size
    case BindlessArrayTag => ms == [] && Words.Pow2(8 * node.size) == WORD && node.alignment == node.size
    case AccelTag => ms == [] && Words.Pow2(8 * node.size) == WORD && node.alignment == node.size
  }

  function Sizes(ms: seq<Info>): (r: seq<nat>)
    ensures |r| == |ms| && forall k | 0 <= k < |ms| :: r[k] == ms[k].size
  {
    seq(|ms|, k requires 0 <= k < |ms| => ms[k].size)
  }

  function Alignments(ms: seq<Info>): (r: seq<nat>)
    ensures |r| == |ms| && forall k | 0 <= k < |ms| :: r[k] == ms[k].alignment
  {
    seq(|ms|, k requires 0 <= k < |ms| => ms[k].alignment)
  }

  lemma PointsTo(types: seq<Info>, typeSet: map<string, nat>, meaning: seq<Ty>, i: nat)
    requires Consistent(types, typeSet, meaning) && i < |types|
    ensures |meaning| == |types| && |types[i].members| == |MembersOf(meaning[i])|
    ensures forall k | 0 <= k < |types[i].members| ::
              types[i].members[k] < i && meaning[types[i].members[k]] == MembersOf(meaning[i])[k]
  {
    assert StandsFor(types[i], meaning[i], meaning[..i]);
  }

  lemma MembersAre(types: seq<Info>, typeSet: map<string, nat>, meaning: seq<Ty>, i: nat) returns (ms: seq<Info>)
    requires Consistent(types, typeSet, meaning) && i < |types|
    ensures forall k | 0 <= k < |types[i].members| :: types[i].members[k] < i
    ensures ms == MemberNodes(types, i) && |meaning| == |types| && |ms| == |MembersOf(meaning[i])|
    ensures forall k | 0 <= k < |ms| ::
              var t := MembersOf(meaning[i])[k];
              && Types.Valid(t) && ms[k].tag == TagOf(t) && ms[k].size == Size(t) && ms[k].alignment == Align(t)
              && ms[k].tag.Scalar() == t.Scalar() && ms[k].tag.Resource() == t.Resource()
  {
    PointsTo(types, typeSet, meaning, i);
    hide Consistent;
    ms := MemberNodes(types, i);
    hide MembersOf, Size, Align, TagOf, Types.Valid;
    forall k | 0 <= k < |ms|
      ensures var t := MembersOf(meaning[i])[k];
              && Types.Valid(t) && ms[k].tag == TagOf(t) && ms[k].size == Size(t) && ms[k].alignment == Align(t)
              && ms[k].tag.Scalar() == t.Scalar() && ms[k].tag.Resource() == t.Resource()
    {
      NodeFacts(types, typeSet, meaning, types[i].members[k]);
    }
  }

  /**
   * Every node holds its members: a vector its components in the least power of two, a matrix
   * its columns, an array its elements, a structure its members packed in order.
   */
  lemma NodeIsLaidOut(types: seq<Info>, typeSet: map<string, nat>, meaning: seq<Ty>, i: nat)
    requires Consistent(types, typeSet, meaning) && i < |types|
    ensures forall k | 0 <= k < |types[i].members| :: types[i].members[k] < i
    ensures LaidOut(types[i], MemberNodes(types, i))
  {
    var ms := MembersAre(types, typeSet, meaning, i);
    NodeFacts(types, typeSet, meaning, i);
    assert StandsFor(types[i], meaning[i], meaning[..i]);
    hide Consistent;
    TypeIsLaidOut(types[i], meaning[i], ms);
  }

  lemma TypeIsLaidOut(node: Info, t: Ty, ms: seq<Info>)
    requires Types.Valid(t) && node.tag == TagOf(t) && node.dimension == DimensionOf(t)
    requires node.size == Size(t) && node.alignment == Align(t) && |ms| == |MembersOf(t)|
    requires forall k | 0 <= k < |ms| ::
               var m := MembersOf(t)[k];
               && Types.Valid(m) && ms[k].tag == TagOf(m) && ms[k].size == Size(m) && ms[k].alignment == Align(m)
               && ms[k].tag.Scalar() == m.Scalar() && ms[k].tag.Resource() == m.Resource()
    ensures LaidOut(node, ms)
  {
    hide Words.Pow2, Words.LeastPow2AtLeast, Layout.Packed;
    Layout.ScalarLayout(t);
    match t
    case Bool =>
    case Float =>
    case Int =>
    case Uint =>
    case Vector(e, n) => Layout.VectorLayout(e, n);
    case Matrix(n) =>
      Layout.MatrixLayout(n);
      Layout.VectorLayout(Float, n);
    case Array(e, n) => Layout.ArrayLayout(e, n);
    case Structure(a, members) => StructureIsLaidOut(node, a, members, ms);
    case Buffer(_) =>
    case Texture(_, _) =>
    case BindlessArray =>
    case Accel =>
  }

  lemma StructureIsLaidOut(node: Info, a: nat, ts: seq<Ty>, ms: seq<Info>)
    requires Types.Valid(Structure(a, ts)) && Layout.AllValid(ts) && |ms| == |ts|
    requires node.size == Size(Structure(a, ts)) && node.alignment == a
    requires forall k | 0 <= k < |ms| ::
               && ms[k].size == Size(ts[k]) && ms[k].alignment == Align(ts[k])
               && ms[k].tag.Resource() == ts[k].Resource()
    ensures forall k | 0 <= k < |ms| :: !ms[k].tag.Resource() && ms[k].alignment <= node.alignment
    ensures exists offsets, size ::
              Layout.Packed(offsets, Sizes(ms), Alignments(ms), size, node.alignment) && node.size == Wrap64(size)
  {
    assert forall k | 0 <= k < |ts| :: ts[k] in ts && !ts[k].Resource() && Align(ts[k]) <= a;
    var sizes, alignments := Sizes(ms), Alignments(ms);
    hide Types.Valid, Size, Align, Wrap64, Layout.Packed, AlignmentAllowed;
    DescribesMembers(ts, sizes, alignments);
    var size := Layout.StructureIsPacked(a, ts, sizes, alignments);
  }

  lemma DescribesMembers(ts: seq<Ty>, sizes: seq<nat>, alignments: seq<nat>)
    requires Layout.AllValid(ts) && |sizes| == |alignments| == |ts|
    requires forall k | 0 <= k < |ts| :: sizes[k] == Size(ts[k]) && alignments[k] == Align(ts[k])
    ensures Layout.Describes(sizes, alignments, ts)
  {
    hide Size, Align, Types.Valid, AlignmentAllowed;
    forall k | 0 <= k < |ts| ensures AlignmentAllowed(Align(ts[k])) {
      ValidAlignment(ts[k]);
    }
  }

  /** The type that a node with these contents can stand for. */
  function Denoted(tag: Tag, dimension: nat, alignment: nat, ms: seq<Ty>): Option<Ty> {
    match tag
    case BoolTag => if ms == [] then Some(Bool) else None
    case FloatTag => if ms == [] then Some(Float) else None
    case IntTag => if ms == [] then Some(Int) else None
    case UintTag => if ms == [] then Some(Uint) else None
    case VectorTag => if |ms| == 1 then Some(Vector(ms[0], dimension)) else None
    case MatrixTag => if ms == [Float] then Some(Matrix(dimension)) else None
    case ArrayTag => if |ms| == 1 then Some(Array(ms[0], dimension)) else None
    case StructureTag => Some(Structure(alignment, ms))
    case BufferTag => if |ms| == 1 then Some(Buffer(ms[0])) else None
    case TextureTag => if |ms| == 1 then Some(Texture(dimension, ms[0])) else None
    case BindlessArrayTag => if ms == [] then Some(BindlessArray) else None
    case AccelTag => if ms == [] then Some(Accel) else None
  }

  /** A node's tag, dimension, alignment and members determine the type it stands for. */
  lemma NodeDetermines(types: seq<Info>, typeSet: map<string, nat>, meaning: seq<Ty>, i: nat, ms: seq<Ty>)
    requires Consistent(types, typeSet, meaning) && i < |types| && |ms| == |types[i].members|
    requires forall k | 0 <= k < |ms| :: types[i].members[k] < |meaning| && ms[k] == meaning[types[i].members[k]]
    ensures |meaning| == |types|
    ensures Denoted(types[i].tag, types[i].dimension, types[i].alignment, ms) == Some(meaning[i])
  {
    PointsTo(types, typeSet, meaning, i);
    assert StandsFor(types[i], meaning[i], meaning[..i]);
    hide Consistent, PointTo, Denoted, Types.Valid, TagOf, DimensionOf, MembersOf, Align, Size;
    assert ms == MembersOf(meaning[i]);
    TypeIsDenoted(meaning[i]);
  }

  lemma TypeIsDenoted(t: Ty)
    ensures Denoted(TagOf(t), DimensionOf(t), Align(t), MembersOf(t)) == Some(t)
  {
  }

  /** Every node is described by a spelling of the type it stands for. */
  lemma NodeIsSpelled(types: seq<Info>, typeSet: map<string, nat>, meaning: seq<Ty>, i: nat) returns (s: Spelling)
    requires Consistent(types, typeSet, meaning) && i < |types|
    ensures Spelled(s) && Text(s) == types[i].description && Meaning(s) == meaning[i]
  {
    hide Parse, StandsFor, Text, Meaning, Spelled;
    s := ParsedIsSpelled(types[i].description);
  }

  /**
   * Two nodes stand for equal types exactly when their spellings have the same meaning,
   * and are one node exactly when the spellings are the same: nodes of equal types differ
   * in the zeros in front of their numbers, or in dimensions by a multiple of 2^32.
   */
  lemma NodesOfEqualTypes(
      types: seq<Info>, typeSet: map<string, nat>, meaning: seq<Ty>, i: nat, j: nat, s: Spelling, u: Spelling)
    requires Consistent(types, typeSet, meaning) && i < |types| && j < |types|
    requires Spelled(s) && Text(s) == types[i].description
    requires Spelled(u) && Text(u) == types[j].description
    ensures meaning[i] == meaning[j] <==> Meaning(s) == Meaning(u)
    ensures i == j <==> s == u
  {
    hide Parse, StandsFor, Text, Meaning, Spelled;
    var s' := NodeIsSpelled(types, typeSet, meaning, i);
    var u' := NodeIsSpelled(types, typeSet, meaning, j);
    OneSpelling(s, s');
    OneSpelling(u, u');
    if i == j {
      OneSpelling(s, u);
    }
    OneNodePerDescription(types, typeSet, meaning, i, j);
  }
}
