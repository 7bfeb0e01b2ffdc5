/** The strict JSON reader: a recursive descent over a token reader, against a printer that defines the language. */
module StrictJson {
  import opened Wrappers

  const MAX_DEPTH: nat := 32

  /** `Malformed` stands where the tokenizer itself throws; a number says whether it converts to a decimal. */
  datatype Token =
    | BeginObject | EndObject | BeginArray | EndArray | Name(name: string)
    | StringToken(text: string) | NumberToken(raw: string, convertible: bool) | BooleanToken(value: bool) | NullToken
    | Malformed

  datatype Json =
    | Object(members: seq<Member>)
    | Array(elements: seq<Json>)
    | Str(text: string)
    | Number(raw: string)
    | Boolean(value: bool)
    | Null

  datatype Member = Member(key: string, value: Json)

  datatype Error = TooDeep | DuplicateKey(key: string) | UnexpectedToken | MalformedText | TrailingContent

  // --- the language: what trees print to ---------------------------------------------------------------

  function Print(t: Json): (r: seq<Token>)
    ensures |r| >= 1
    decreases t
  {
    match t
    case Object(members) => [BeginObject] + PrintMembers(members) + [EndObject]
    case Array(elements) => [BeginArray] + PrintElements(elements) + [EndArray]
    case Str(text) => [StringToken(text)]
    case Number(raw) => [NumberToken(raw, true)]
    case Boolean(value) => [BooleanToken(value)]
    case Null => [NullToken]
  }

  function PrintMembers(members: seq<Member>): seq<Token>
    decreases members
  {
    if members == [] then []
    else [Name(members[0].key)] + Print(members[0].value) + PrintMembers(members[1..])
  }

  function PrintElements(elements: seq<Json>): seq<Token>
    decreases elements
  {
    if elements == [] then [] else Print(elements[0]) + PrintElements(elements[1..])
  }

  predicate HasKey(members: seq<Member>, key: string) {
    exists i :: 0 <= i < |members| && members[i].key == key
  }

  /** Distinct names in every object, and no value deeper than the limit when the root is at `depth`. */
  predicate Acceptable(t: Json, depth: nat)
    decreases t
  {
    && depth <= MAX_DEPTH
    && match t
       case Object(members) =>
         && (forall i, j | 0 <= i < j < |members| :: members[i].key != members[j].key)
         && (forall i | 0 <= i < |members| :: Acceptable(members[i].value, depth + 1))
       case Array(elements) => forall i | 0 <= i < |elements| :: Acceptable(elements[i], depth + 1)
       case _ => true
  }

  // --- the reader as a function of the position -----------------------------------------------------------

  function Peek(ts: seq<Token>, pos: nat): Option<Token> {
    if pos < |ts| then Some(ts[pos]) else None
  }

  /** Something other than the end of the enclosing object, array or document comes next. */
  predicate HasNext(ts: seq<Token>, pos: nat) {
    pos < |ts| && !ts[pos].EndObject? && !ts[pos].EndArray?
  }

  datatype Reading<T> = Reading(value: T, pos: nat)

  function ReadElement(ts: seq<Token>, pos: nat, depth: nat): (r: Result<Reading<Json>, Error>)
    requires pos <= |ts|
    ensures r.Ok? ==> pos < r.value.pos <= |ts|
    decreases |ts| - pos, 0
  {
    if depth > MAX_DEPTH then Err(TooDeep)
    else match Peek(ts, pos)
      case Some(BeginObject) =>
        (match ReadMembers(ts, pos + 1, depth, [])
         case Err(e) => Err(e)
         case Ok(Reading(members, p)) => Ok(Reading(Object(members), p)))
      case Some(BeginArray) =>
        (match ReadElements(ts, pos + 1, depth, [])
         case Err(e) => Err(e)
         case Ok(Reading(elements, p)) => Ok(Reading(Array(elements), p)))
      case Some(StringToken(text)) => Ok(Reading(Str(text), pos + 1))
      case Some(NumberToken(raw, convertible)) => if convertible then Ok(Reading(Number(raw), pos + 1)) else Err(MalformedText)
      case Some(BooleanToken(value)) => Ok(Reading(Boolean(value), pos + 1))
      case Some(NullToken) => Ok(Reading(Null, pos + 1))
      case Some(Malformed) => Err(MalformedText)
      case _ => Err(UnexpectedToken)
  }

  /** The members from here to the closing brace, after those already read. */
  function ReadMembers(ts: seq<Token>, pos: nat, depth: nat, read: seq<Member>): (r: Result<Reading<seq<Member>>, Error>)
    requires pos <= |ts|
    ensures r.Ok? ==> pos < r.value.pos <= |ts|
    decreases |ts| - pos, 1
  {
    if HasNext(ts, pos) then
      if !ts[pos].Name? then Err(MalformedText)
      else if HasKey(read, ts[pos].name) then Err(DuplicateKey(ts[pos].name))
      else match ReadElement(ts, pos + 1, depth + 1)
        case Err(e) => Err(e)
        case Ok(Reading(value, p)) => ReadMembers(ts, p, depth, read + [Member(ts[pos].name, value)])
    else if Peek(ts, pos) == Some(EndObject) then Ok(Reading(read, pos + 1))
    else Err(MalformedText)
  }

  function ReadElements(ts: seq<Token>, pos: nat, depth: nat, read: seq<Json>): (r: Result<Reading<seq<Json>>, Error>)
    requires pos <= |ts|
    ensures r.Ok? ==> pos < r.value.pos <= |ts|
    decreases |ts| - pos, 1
  {
    if HasNext(ts, pos) then
      match ReadElement(ts, pos, depth + 1)
      case Err(e) => Err(e)
      case Ok(Reading(value, p)) => ReadElements(ts, p, depth, read + [value])
    else if Peek(ts, pos) == Some(EndArray) then Ok(Reading(read, pos + 1))
    else Err(MalformedText)
  }

  function Parse(ts: seq<Token>): Result<Json, Error> {
    match ReadElement(ts, 0, 0)
    case Err(e) => Err(e)
    case Ok(Reading(value, p)) => if p < |ts| then Err(TrailingContent) else Ok(value)
  }

  // --- the reader, consuming its tokens -----------------------------------------------------------------------

  class JsonReader {
    const tokens: seq<Token>
    var pos: nat

    ghost predicate Valid()
      reads this
    {
      pos <= |tokens|
    }

    constructor (tokens: seq<Token>)
      ensures Valid() && this.tokens == tokens && pos == 0
    {
      this.tokens := tokens;
      pos := 0;
    }

    /** One element, leaving the reader right behind it. */
    method Element(depth: nat) returns (r: Result<Json, Error>)
      requires Valid()
      modifies this
      ensures Valid() && pos >= old(pos)
      ensures var spec := ReadElement(tokens, old(pos), depth);
              match spec
              case Err(e) => r == Err(e)
              case Ok(Reading(value, p)) => r == Ok(value) && pos == p
      decreases |tokens| - pos
    {
      if depth > MAX_DEPTH {
        return Err(TooDeep);
      }
      if pos == |tokens| {
        return Err(UnexpectedToken);
      }
      ghost var start := pos;
      match tokens[pos] {
        case BeginObject =>
          pos := pos + 1;
          var members: seq<Member> := [];
          while HasNext(tokens, pos)
            invariant start < pos <= |tokens|
            invariant ReadMembers(tokens, start + 1, depth, []) == ReadMembers(tokens, pos, depth, members)
            decreases |tokens| - pos
          {
            var next := tokens[pos];
            if !next.Name? {
              return Err(MalformedText);
            }
            var name := next.name;
            if HasKey(members, name) {
              return Err(DuplicateKey(name));
            }
            pos := pos + 1;
            var value := Element(depth + 1);
            if value.Err? {
              return Err(value.error);
            }
            members := members + [Member(name, value.value)];
          }
          if Peek(tokens, pos) != Some(EndObject) {
            return Err(MalformedText);
          }
          pos := pos + 1;
          return Ok(Object(members));
        case BeginArray =>
          pos := pos + 1;
          var elements: seq<Json> := [];
          while HasNext(tokens, pos)
            invariant start < pos <= |tokens|
            invariant ReadElements(tokens, start + 1, depth, []) == ReadElements(tokens, pos, depth, elements)
            decreases |tokens| - pos
          {
            var value := Element(depth + 1);
            if value.Err? {
              return Err(value.error);
            }
            elements := elements + [value.value];
          }
          if Peek(tokens, pos) != Some(EndArray) {
            return Err(MalformedText);
          }
          pos := pos + 1;
          return Ok(Array(elements));
        case StringToken(text) =>
          pos := pos + 1;
          return Ok(Str(text));
        case NumberToken(raw, convertible) =>
          pos := pos + 1;
          return if convertible then Ok(Number(raw)) else Err(MalformedText);
        case BooleanToken(value) =>
          pos := pos + 1;
          return Ok(Boolean(value));
        case NullToken =>
          pos := pos + 1;
          return Ok(Null);
        case Malformed =>
          return Err(MalformedText);
        case _ =>
          return Err(UnexpectedToken);
      }
    }
  }

  /** The whole document: one element and nothing after it. */
  method ParseDocument(ts: seq<Token>) returns (r: Result<Json, Error>)
    ensures r == Parse(ts)
  {
    var reader := new JsonReader(ts);
    r := reader.Element(0);
    if r.Ok? && reader.pos < |ts| {
      r := Err(TrailingContent);
    }
  }

  // --- what is accepted is exactly what prints ------------------------------------------------------------------

  /** Distinct keys and acceptable values, for the members of one object at `depth`. */
  predicate AcceptableMembers(members: seq<Member>, depth: nat) {
    && (forall i, j | 0 <= i < j < |members| :: members[i].key != members[j].key)
    && (forall i | 0 <= i < |members| :: Acceptable(members[i].value, depth + 1))
  }

  // One step of each definition, so that the proofs below need no other unfolding.

  lemma AcceptableUnfolds(t: Json, depth: nat)
    ensures t.Object? ==> (Acceptable(t, depth) <==> depth <= MAX_DEPTH && AcceptableMembers(t.members, depth))
    ensures t.Array? ==> (Acceptable(t, depth) <==>
                            depth <= MAX_DEPTH && forall i | 0 <= i < |t.elements| :: Acceptable(t.elements[i], depth + 1))
    ensures Acceptable(t, depth) ==> depth <= MAX_DEPTH
  {
  }

  lemma PrintUnfolds(t: Json, members: seq<Member>, elements: seq<Json>)
    ensures t.Object? ==> Print(t) == [BeginObject] + PrintMembers(t.members) + [EndObject]
    ensures t.Array? ==> Print(t) == [BeginArray] + PrintElements(t.elements) + [EndArray]
    ensures PrintMembers([]) == [] && PrintElements([]) == []
    ensures members != [] ==>
              PrintMembers(members) == [Name(members[0].key)] + Print(members[0].value) + PrintMembers(members[1..])
    ensures elements != [] ==> PrintElements(elements) == Print(elements[0]) + PrintElements(elements[1..])
  {
  }

  lemma ReadElementUnfolds(ts: seq<Token>, pos: nat, depth: nat)
    requires pos <= |ts| && depth <= MAX_DEPTH
    ensures pos < |ts| && ts[pos] == BeginObject ==>
              var r := ReadMembers(ts, pos + 1, depth, []);
              ReadElement(ts, pos, depth) == if r.Ok? then Ok(Reading(Object(r.value.value), r.value.pos)) else Err(r.error)
    ensures pos < |ts| && ts[pos] == BeginArray ==>
              var r := ReadElements(ts, pos + 1, depth, []);
              ReadElement(ts, pos, depth) == if r.Ok? then Ok(Reading(Array(r.value.value), r.value.pos)) else Err(r.error)
  {
  }

  lemma NextIs(ts: seq<Token>, pos: nat)
    ensures HasNext(ts, pos) <==> pos < |ts| && !ts[pos].EndObject? && !ts[pos].EndArray?
    ensures Peek(ts, pos) == if pos < |ts| then Some(ts[pos]) else None
  {
  }

  lemma ReadMembersUnfolds(ts: seq<Token>, pos: nat, depth: nat, read: seq<Member>)
    requires pos <= |ts|
    ensures var r, more := ReadMembers(ts, pos, depth, read), HasNext(ts, pos) && ts[pos].Name? && !HasKey(read, ts[pos].name);
            var e := ReadElement(ts, if pos < |ts| then pos + 1 else pos, depth + 1);
            && (more && e.Ok? ==> r == ReadMembers(ts, e.value.pos, depth, read + [Member(ts[pos].name, e.value.value)]))
            && (!HasNext(ts, pos) && Peek(ts, pos) == Some(EndObject) ==> r == Ok(Reading(read, pos + 1)))
            && (r.Ok? ==> (more && e.Ok?) || (!HasNext(ts, pos) && Peek(ts, pos) == Some(EndObject)))
  {
  }

  lemma ReadElementsUnfolds(ts: seq<Token>, pos: nat, depth: nat, read: seq<Json>)
    requires pos <= |ts|
    ensures var r, e := ReadElements(ts, pos, depth, read), ReadElement(ts, pos, depth + 1);
            && (HasNext(ts, pos) && e.Ok? ==> r == ReadElements(ts, e.value.pos, depth, read + [e.value.value]))
            && (!HasNext(ts, pos) && Peek(ts, pos) == Some(EndArray) ==> r == Ok(Reading(read, pos + 1)))
            && (r.Ok? ==> (HasNext(ts, pos) && e.Ok?) || (!HasNext(ts, pos) && Peek(ts, pos) == Some(EndArray)))
  {
  }

  lemma {:induction false} ElementSound(ts: seq<Token>, pos: nat, depth: nat)
    requires pos <= |ts|
    ensures var r := ReadElement(ts, pos, depth);
            r.Ok? ==> ts[pos..r.value.pos] == Print(r.value.value) && Acceptable(r.value.value, depth)
    decreases |ts| - pos, 2
  {
    var r := ReadElement(ts, pos, depth);
    if r.Ok? {
      if ts[pos] == BeginObject {
        ObjectSound(ts, pos, depth);
      } else if ts[pos] == BeginArray {
        ArraySound(ts, pos, depth);
      } else {
        assert ts[pos..pos + 1] == [ts[pos]];
      }
    }
  }

  lemma {:induction false} ObjectSound(ts: seq<Token>, pos: nat, depth: nat)
    requires pos < |ts| && ts[pos] == BeginObject && depth <= MAX_DEPTH
    ensures var r := ReadMembers(ts, pos + 1, depth, []);
            r.Ok? ==> ts[pos..r.value.pos] == Print(Object(r.value.value)) && Acceptable(Object(r.value.value), depth)
    decreases |ts| - pos, 1
  {
    assert AcceptableMembers([], depth);
    hide *;
    MembersSound(ts, pos + 1, depth, []);
    var r := ReadMembers(ts, pos + 1, depth, []);
    if r.Ok? {
      AcceptableUnfolds(Object(r.value.value), depth);
      PrintUnfolds(Object(r.value.value), [], []);
      Bracketed(ts, pos, r.value.pos, PrintMembers(r.value.value), EndObject);
    }
  }

  lemma Bracketed(ts: seq<Token>, pos: nat, end: nat, body: seq<Token>, close: Token)
    requires pos < end <= |ts| && [] + ts[pos + 1..end] == body + [close]
    ensures ts[pos..end] == [ts[pos]] + body + [close]
  {
    assert ts[pos..end] == [ts[pos]] + ts[pos + 1..end];
    assert [] + ts[pos + 1..end] == ts[pos + 1..end];
  }

  lemma {:induction false} ArraySound(ts: seq<Token>, pos: nat, depth: nat)
    requires pos < |ts| && ts[pos] == BeginArray && depth <= MAX_DEPTH
    ensures var r := ReadElements(ts, pos + 1, depth, []);
            r.Ok? ==> ts[pos..r.value.pos] == Print(Array(r.value.value)) && Acceptable(Array(r.value.value), depth)
    decreases |ts| - pos, 1
  {
    hide *;
    ElementsSound(ts, pos + 1, depth, []);
    var r := ReadElements(ts, pos + 1, depth, []);
    if r.Ok? {
      AcceptableUnfolds(Array(r.value.value), depth);
      PrintUnfolds(Array(r.value.value), [], []);
      Bracketed(ts, pos, r.value.pos, PrintElements(r.value.value), EndArray);
    }
  }

  lemma {:induction false} PrintMembersAppend(members: seq<Member>, m: Member)
    ensures PrintMembers(members + [m]) == PrintMembers(members) + ([Name(m.key)] + Print(m.value))
  {
    if members == [] {
      assert [] + [m] == [m];
      assert PrintMembers([m]) == [Name(m.key)] + Print(m.value) + PrintMembers([]);
    } else {
      assert (members + [m])[1..] == members[1..] + [m];
      PrintMembersAppend(members[1..], m);
    }
  }

  lemma {:induction false} PrintElementsAppend(elements: seq<Json>, x: Json)
    ensures PrintElements(elements + [x]) == PrintElements(elements) + Print(x)
  {
    if elements == [] {
      assert [] + [x] == [x];
      assert PrintElements([x]) == Print(x) + PrintElements([]);
    } else {
      assert (elements + [x])[1..] == elements[1..] + [x];
      PrintElementsAppend(elements[1..], x);
    }
  }

  lemma {:induction false} MembersSound(ts: seq<Token>, pos: nat, depth: nat, read: seq<Member>)
    requires pos <= |ts| && AcceptableMembers(read, depth)
    ensures var r := ReadMembers(ts, pos, depth, read);
            r.Ok? ==> && PrintMembers(read) + ts[pos..r.value.pos] == PrintMembers(r.value.value) + [EndObject]
                      && AcceptableMembers(r.value.value, depth)
    decreases |ts| - pos, 3
  {
    hide *;
    var r := ReadMembers(ts, pos, depth, read);
    ReadMembersUnfolds(ts, pos, depth, read);
    NextIs(ts, pos);
    if r.Ok? {
      if HasNext(ts, pos) {
        ElementSound(ts, pos + 1, depth + 1);
        var e := ReadElement(ts, pos + 1, depth + 1).value;
        var m := Member(ts[pos].name, e.value);
        PrintMembersAppend(read, m);
        FreshKeyKeeps(read, m, depth);
        MembersSound(ts, e.pos, depth, read + [m]);
        assert ts[pos..r.value.pos] == [ts[pos]] + ts[pos + 1..e.pos] + ts[e.pos..r.value.pos];
        assert PrintMembers(read) + ts[pos..r.value.pos] == PrintMembers(read + [m]) + ts[e.pos..r.value.pos];
      } else {
        assert ts[pos..r.value.pos] == [EndObject];
      }
    }
  }

  lemma FreshKeyKeeps(read: seq<Member>, m: Member, depth: nat)
    requires AcceptableMembers(read, depth) && !HasKey(read, m.key) && Acceptable(m.value, depth + 1)
    ensures AcceptableMembers(read + [m], depth)
  {
    hide Acceptable;
  }

  lemma {:induction false} ElementsSound(ts: seq<Token>, pos: nat, depth: nat, read: seq<Json>)
    requires pos <= |ts| && forall i | 0 <= i < |read| :: Acceptable(read[i], depth + 1)
    ensures var r := ReadElements(ts, pos, depth, read);
            r.Ok? ==> && PrintElements(read) + ts[pos..r.value.pos] == PrintElements(r.value.value) + [EndArray]
                      && forall i | 0 <= i < |r.value.value| :: Acceptable(r.value.value[i], depth + 1)
    decreases |ts| - pos, 3
  {
    hide *;
    var r := ReadElements(ts, pos, depth, read);
    ReadElementsUnfolds(ts, pos, depth, read);
    NextIs(ts, pos);
    if r.Ok? {
      if HasNext(ts, pos) {
        ElementSound(ts, pos, depth + 1);
        var e := ReadElement(ts, pos, depth + 1).value;
        PrintElementsAppend(read, e.value);
        ElementsSound(ts, e.pos, depth, read + [e.value]);
        assert ts[pos..r.value.pos] == ts[pos..e.pos] + ts[e.pos..r.value.pos];
      } else {
        assert ts[pos..r.value.pos] == [EndArray];
      }
    }
  }

  /** `ts` continues with `piece` at `pos`. */
  predicate At(ts: seq<Token>, pos: nat, piece: seq<Token>) {
    pos + |piece| <= |ts| && ts[pos..pos + |piece|] == piece
  }

  lemma AtSplit(ts: seq<Token>, pos: nat, a: seq<Token>, b: seq<Token>)
    requires At(ts, pos, a + b)
    ensures At(ts, pos, a) && At(ts, pos + |a|, b)
  {
    var whole := ts[pos..pos + |a + b|];
    assert whole[..|a|] == a && whole[|a|..] == b;
    assert ts[pos..pos + |a|] == whole[..|a|];
    assert ts[pos + |a|..pos + |a + b|] == whole[|a|..];
  }

  lemma AtToken(ts: seq<Token>, pos: nat, x: Token)
    requires At(ts, pos, [x])
    ensures pos < |ts| && ts[pos] == x
  {
    assert ts[pos..pos + 1][0] == ts[pos];
  }

  lemma AtBracketed(ts: seq<Token>, pos: nat, opening: Token, body: seq<Token>, close: Token)
    requires At(ts, pos, [opening] + body + [close])
    ensures pos < |ts| && ts[pos] == opening && At(ts, pos + 1, body) && At(ts, pos + 1 + |body|, [close])
    ensures |[opening] + body + [close]| == |body| + 2
  {
    AtSplit(ts, pos, [opening] + body, [close]);
    AtSplit(ts, pos, [opening], body);
    AtToken(ts, pos, opening);
  }

  lemma {:induction false} ElementComplete(ts: seq<Token>, pos: nat, depth: nat, t: Json)
    requires At(ts, pos, Print(t)) && Acceptable(t, depth)
    ensures ReadElement(ts, pos, depth) == Ok(Reading(t, pos + |Print(t)|))
    decreases t, 1
  {
    match t
    case Object(members) => ObjectComplete(ts, pos, depth, t);
    case Array(elements) => ArrayComplete(ts, pos, depth, t);
    case _ => AtToken(ts, pos, Print(t)[0]);
  }

  lemma {:induction false} ObjectComplete(ts: seq<Token>, pos: nat, depth: nat, t: Json)
    requires t.Object? && At(ts, pos, Print(t)) && Acceptable(t, depth)
    ensures ReadElement(ts, pos, depth) == Ok(Reading(t, pos + |Print(t)|))
    decreases t, 0
  {
    assert pos <= |ts|;
    hide *;
    AcceptableUnfolds(t, depth);
    ReadElementUnfolds(ts, pos, depth);
    PrintUnfolds(t, [], []);
    var printed := PrintMembers(t.members);
    assert [] + t.members == t.members;
    AtBracketed(ts, pos, BeginObject, printed, EndObject);
    MembersComplete(ts, pos + 1, depth, [], t.members);
  }

  lemma {:induction false} ArrayComplete(ts: seq<Token>, pos: nat, depth: nat, t: Json)
    requires t.Array? && At(ts, pos, Print(t)) && Acceptable(t, depth)
    ensures ReadElement(ts, pos, depth) == Ok(Reading(t, pos + |Print(t)|))
    decreases t, 0
  {
    assert pos <= |ts|;
    hide *;
    AcceptableUnfolds(t, depth);
    ReadElementUnfolds(ts, pos, depth);
    PrintUnfolds(t, [], []);
    var printed := PrintElements(t.elements);
    assert [] + t.elements == t.elements;
    AtBracketed(ts, pos, BeginArray, printed, EndArray);
    ElementsComplete(ts, pos + 1, depth, [], t.elements);
  }

  lemma {:induction false} MembersComplete(ts: seq<Token>, pos: nat, depth: nat, read: seq<Member>, members: seq<Member>)
    requires At(ts, pos, PrintMembers(members)) && At(ts, pos + |PrintMembers(members)|, [EndObject])
    requires AcceptableMembers(read + members, depth)
    ensures ReadMembers(ts, pos, depth, read) == Ok(Reading(read + members, pos + |PrintMembers(members)| + 1))
    decreases members
  {
    hide *;
    AtToken(ts, pos + |PrintMembers(members)|, EndObject);
    ReadMembersUnfolds(ts, pos, depth, read);
    NextIs(ts, pos);
    PrintUnfolds(Null, members, []);
    if members == [] {
      assert read + members == read;
    } else {
      var m, rest := members[0], members[1..];
      NextKeyIsFresh(read, m, rest, members, depth);
      var name := [Name(m.key)];
      AtSplit(ts, pos, name + Print(m.value), PrintMembers(rest));
      AtSplit(ts, pos, name, Print(m.value));
      AtToken(ts, pos, Name(m.key));
      ElementComplete(ts, pos + 1, depth + 1, m.value);
      MembersComplete(ts, pos + 1 + |Print(m.value)|, depth, read + [m], rest);
    }
  }

  lemma NextKeyIsFresh(read: seq<Member>, m: Member, rest: seq<Member>, members: seq<Member>, depth: nat)
    requires members == [m] + rest && AcceptableMembers(read + members, depth)
    ensures !HasKey(read, m.key) && Acceptable(m.value, depth + 1) && read + members == read + [m] + rest
  {
    hide Acceptable;
    assert read + members == read + [m] + rest;
    assert (read + members)[|read|] == m;
    forall i | 0 <= i < |read|
      ensures read[i].key != m.key
    {
      assert (read + members)[i] == read[i];
    }
  }

  lemma PrintStarts(t: Json)
    ensures !Print(t)[0].EndObject? && !Print(t)[0].EndArray?
  {
  }

  lemma {:induction false} ElementsComplete(ts: seq<Token>, pos: nat, depth: nat, read: seq<Json>, elements: seq<Json>)
    requires At(ts, pos, PrintElements(elements)) && At(ts, pos + |PrintElements(elements)|, [EndArray])
    requires forall i | 0 <= i < |elements| :: Acceptable(elements[i], depth + 1)
    ensures ReadElements(ts, pos, depth, read) == Ok(Reading(read + elements, pos + |PrintElements(elements)| + 1))
    decreases elements
  {
    hide *;
    AtToken(ts, pos + |PrintElements(elements)|, EndArray);
    ReadElementsUnfolds(ts, pos, depth, read);
    NextIs(ts, pos);
    PrintUnfolds(Null, [], elements);
    if elements == [] {
      assert read + elements == read;
    } else {
      var x, rest := elements[0], elements[1..];
      PrintStarts(x);
      assert read + elements == read + [x] + rest;
      AtSplit(ts, pos, Print(x), PrintElements(rest));
      AtFirst(ts, pos, Print(x));
      ElementComplete(ts, pos, depth + 1, x);
      ElementsComplete(ts, pos + |Print(x)|, depth, read + [x], rest);
    }
  }

  lemma AtFirst(ts: seq<Token>, pos: nat, piece: seq<Token>)
    requires piece != [] && At(ts, pos, piece)
    ensures pos < |ts| && ts[pos] == piece[0]
  {
    assert ts[pos..pos + |piece|][0] == ts[pos];
  }

  /**
   * Reader and printer undo each other: a token stream is accepted as `t` exactly when it is the whole printing of `t`,
   * with distinct names in every object and nesting within the limit.
   */
  lemma ParseExactlyPrinted(ts: seq<Token>, t: Json)
    ensures Parse(ts) == Ok(t) <==> ts == Print(t) && Acceptable(t, 0)
  {
    if Parse(ts) == Ok(t) {
      ElementSound(ts, 0, 0);
      assert ts[0..|ts|] == ts;
    }
    if ts == Print(t) && Acceptable(t, 0) {
      assert ts[0..0 + |ts|] == ts;
      ElementComplete(ts, 0, 0, t);
    }
  }

  /** So no two trees share a printing. */
  lemma PrintInjective(t: Json, u: Json)
    requires Acceptable(t, 0) && Acceptable(u, 0) && Print(t) == Print(u)
    ensures t == u
  {
    ParseExactlyPrinted(Print(t), t);
    ParseExactlyPrinted(Print(t), u);
  }

  // --- the accessor that accounts for every key -------------------------------------------------------------------

  function Lookup(members: seq<Member>, key: string): Option<Json> {
    if members == [] then None
    else if members[0].key == key then Some(members[0].value)
    else Lookup(members[1..], key)
  }

  lemma {:induction false} LookupFinds(members: seq<Member>, key: string)
    ensures Lookup(members, key).Some? <==> HasKey(members, key)
    ensures Lookup(members, key).Some? ==> Member(key, Lookup(members, key).value) in members
  {
    if members != [] {
      LookupFinds(members[1..], key);
      if members[0].key == key {
        assert members[0] == Member(key, members[0].value);
      } else if HasKey(members, key) {
        var i :| 0 <= i < |members| && members[i].key == key;
        assert members[1..][i - 1].key == key;
      }
    }
  }

  datatype FieldError = MissingField(key: string) | UnknownField(key: string)

  class Obj {
    const members: seq<Member>
    var seen: set<string>

    constructor (members: seq<Member>)
      ensures this.members == members && seen == {}
    {
      this.members := members;
      seen := {};
    }

    method Require(key: string) returns (r: Result<Json, FieldError>)
      modifies this
      ensures seen == old(seen) + {key}
      ensures r == match Lookup(members, key) case Some(v) => Ok(v) case None => Err(MissingField(key))
    {
      seen := seen + {key};
      var found := Lookup(members, key);
      if found.None? {
        return Err(MissingField(key));
      }
      return Ok(found.value);
    }

    method Nullable(key: string) returns (r: Option<Json>)
      modifies this
      ensures seen == old(seen) + {key}
      ensures r == if Lookup(members, key) == Some(Null) then None else Lookup(members, key)
    {
      seen := seen + {key};
      var found := Lookup(members, key);
      return if found.None? || found.value.Null? then None else found;
    }

    /** Present and not null; asking does not count as reading. */
    method Has(key: string) returns (r: bool)
      ensures r <==> Lookup(members, key).Some? && Lookup(members, key) != Some(Null)
    {
      var found := Lookup(members, key);
      return found.Some? && !found.value.Null?;
    }

    /** Rejects the first key nobody read. */
    method Finish() returns (r: Option<FieldError>)
      ensures r == FirstUnread(members, seen)
    {
      for i := 0 to |members|
        invariant FirstUnread(members, seen) == FirstUnread(members[i..], seen)
      {
        if members[i].key !in seen {
          return Some(UnknownField(members[i].key));
        }
      }
      return None;
    }
  }

  function FirstUnread(members: seq<Member>, seen: set<string>): Option<FieldError> {
    if members == [] then None
    else if members[0].key !in seen then Some(UnknownField(members[0].key))
    else FirstUnread(members[1..], seen)
  }

  lemma {:induction false} FirstUnreadNone(members: seq<Member>, seen: set<string>)
    ensures FirstUnread(members, seen).None? <==> forall i | 0 <= i < |members| :: members[i].key in seen
  {
    if members != [] {
      FirstUnreadNone(members[1..], seen);
      if forall i | 0 <= i < |members| :: members[i].key in seen {
        forall i | 0 <= i < |members[1..]|
          ensures members[1..][i].key in seen
        {
          assert members[1..][i] == members[i + 1];
        }
      } else {
        var i :| 0 <= i < |members| && members[i].key !in seen;
        if i > 0 {
          assert members[1..][i - 1] == members[i];
        }
      }
    }
  }

  /** One thing a field decoder does with its object. */
  datatype Access = RequireAccess(key: string) | NullableAccess(key: string) | HasAccess(key: string)

  /** A decoder's accesses in order, ending with the check for leftovers; the first failure wins. */
  function Decode(members: seq<Member>, accesses: seq<Access>, seen: set<string>): Option<FieldError> {
    if accesses == [] then FirstUnread(members, seen)
    else match accesses[0]
      case RequireAccess(key) =>
        if Lookup(members, key).None? then Some(MissingField(key)) else Decode(members, accesses[1..], seen + {key})
      case NullableAccess(key) => Decode(members, accesses[1..], seen + {key})
      case HasAccess(_) => Decode(members, accesses[1..], seen)
  }

  predicate Reads(accesses: seq<Access>, key: string) {
    RequireAccess(key) in accesses || NullableAccess(key) in accesses
  }

  /**
   * An object passes exactly when it has every required key and no key that was never read. A key that was only asked
   * about with `Has` counts as unknown.
   */
  lemma {:induction false} DecodeAcceptsExactly(members: seq<Member>, accesses: seq<Access>, seen: set<string>)
    ensures Decode(members, accesses, seen).None? <==>
              && (forall key | RequireAccess(key) in accesses :: HasKey(members, key))
              && (forall i | 0 <= i < |members| :: members[i].key in seen || Reads(accesses, members[i].key))
  {
    if accesses == [] {
      FirstUnreadNone(members, seen);
    } else {
      var a, rest := accesses[0], accesses[1..];
      assert accesses == [a] + rest;
      LookupFinds(members, a.key);
      var seen' := if a.HasAccess? then seen else seen + {a.key};
      DecodeAcceptsExactly(members, rest, seen');
      assert forall x :: x in accesses <==> x == a || x in rest;
      forall i | 0 <= i < |members|
        ensures (members[i].key in seen || Reads(accesses, members[i].key))
                <==> (members[i].key in seen' || Reads(rest, members[i].key))
      {
      }
      hide HasKey, Lookup;
    }
  }
}
