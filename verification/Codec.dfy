/**
  The reader and the writer of internal/canonicalaction/action.go in their own form: a
  decoder that advances through its input and a buffer that grows.  Each is proved equal to
  the functions of Json and Canonical, which carry the properties.
 */
module Codec {
  import opened Wrappers
  import opened Json
  import opened Canonical
  import Numbers
  import Strings
  import Utf8

  /** What comes next inside an object. */
  datatype Next = Absent | Closed | Present

  class Decoder {
    const input: string
    var pos: nat

    ghost predicate Valid()
      reads this
    {
      pos <= |input|
    }

    ghost function Rest(): string
      requires Valid()
      reads this
    {
      input[pos..]
    }

    constructor (input: string)
      ensures Valid() && this.input == input && Rest() == input
    {
      this.input := input;
      pos := 0;
    }

    method SkipSpaces()
      requires Valid()
      modifies this
      ensures Valid() && pos >= old(pos) && Rest() == SkipSpace(old(Rest()))
    {
      while pos < |input| && IsSpace(input[pos])
        invariant Valid() && pos >= old(pos) && SkipSpace(Rest()) == SkipSpace(old(Rest()))
      {
        assert input[pos..][1..] == input[pos + 1..];
        pos := pos + 1;
      }
    }

    /** Move past what a parsed prefix of the rest consumed. */
    method Advance(rest: string)
      requires Valid() && |rest| <= |Rest()| && Rest()[|Rest()| - |rest|..] == rest
      modifies this
      ensures Valid() && Rest() == rest && pos == |input| - |rest|
    {
      pos := |input| - |rest|;
    }

    /** A string token after its opening quote. */
    method ReadString() returns (s: Option<Strings.Body>)
      requires Valid()
      modifies this
      ensures Valid() && s == Strings.ReadBody(old(Rest()))
      ensures s.Some? ==> Rest() == s.value.rest && pos > old(pos)
      ensures s.None? ==> pos == old(pos)
    {
      s := Strings.ReadBody(input[pos..]);
      if s.Some? {
        BodyIsSuffix(input[pos..]);
        Advance(s.value.rest);
      }
    }

    /** An object key that is not yet among members, and its colon. */
    method ReadObjectKey(members: map<string, Value>) returns (r: Result<string, JsonError>, ghost lossy: bool)
      requires Valid()
      modifies this
      ensures Valid() && pos >= old(pos)
      ensures match ReadKey(old(Rest()), members)
              case NoKey(error) => r == Err(error)
              case Key(key, l, rest) => r == Ok(key) && lossy == l && Rest() == rest && pos > old(pos)
    {
      hide SkipSpace, Strings.ReadBody;
      lossy := false;
      if pos == |input| || input[pos] != '"' {
        return Err(InvalidJSON), lossy;
      }
      pos := pos + 1;
      assert Rest() == old(Rest())[1..];
      var body := ReadString();
      if body.None? {
        return Err(InvalidJSON), lossy;
      }
      if body.value.content in members {
        return Err(DuplicateObjectKey), lossy;
      }
      SkipSpaces();
      if pos == |input| || input[pos] != ':' {
        return Err(InvalidJSON), lossy;
      }
      pos := pos + 1;
      assert Rest() == SkipSpace(body.value.rest)[1..];
      return Ok(body.value.content), body.value.lossy;
    }

    /** A number token, normalized by the loop of module Numbers. */
    method ReadNumberToken() returns (r: Result<Value, JsonError>)
      requires Valid() && pos < |input|
      modifies this
      ensures Valid() && pos >= old(pos)
      ensures match ReadNumber(old(Rest()))
              case Failed(error) => r == Err(error)
              case Parsed(v, l, rest) => r == Ok(v) && !l && Rest() == rest && pos > old(pos)
    {
      hide Numbers.ScanNumber, Numbers.Normalize;
      var s := input[pos..];
      var scanned := Numbers.ScanNumber(s);
      if scanned.None? {
        return Err(InvalidJSON);
      }
      Numbers.ScanSplits(s);
      var rest := scanned.value.1;
      var normal := Numbers.NormalizeJSONNumber(s[..|s| - |rest|]);
      if normal.None? {
        return Err(InvalidJSON);
      }
      Advance(rest);
      return Ok(Num(normal.value));
    }

    method ReadScalarToken() returns (r: Result<Value, JsonError>, ghost lossy: bool)
      requires Valid() && pos < |input|
      modifies this
      ensures Valid() && pos >= old(pos)
      ensures match ReadScalar(old(Rest()))
              case Failed(error) => r == Err(error)
              case Parsed(v, l, rest) => r == Ok(v) && lossy == l && Rest() == rest && pos > old(pos)
    {
      lossy := false;
      if input[pos] != '"' && input[pos] != 'n' && input[pos] != 't' && input[pos] != 'f' {
        r := ReadNumberToken();
        return;
      }
      var p := ReadScalar(input[pos..]);
      if p.Failed? {
        return Err(p.error), false;
      }
      ScalarIsSuffix(input[pos..]);
      Advance(p.rest);
      return Ok(p.value), p.lossy;
    }

    /** readJSONValue: lossy, which the program does not compute, says whether a surrogate was replaced. */
    method ReadJSONValue(depth: nat) returns (r: Result<Value, JsonError>, ghost lossy: bool)
      requires Valid() && depth <= MAX_JSON_DEPTH + 1
      modifies this
      ensures Valid() && pos >= old(pos)
      ensures match ReadValue(old(Rest()), MAX_JSON_DEPTH - depth)
              case Failed(error) => r == Err(error)
              case Parsed(v, l, rest) => r == Ok(v) && lossy == l && Rest() == rest && pos > old(pos)
      decreases MAX_JSON_DEPTH + 1 - depth, 2
    {
      lossy := false;
      if depth > MAX_JSON_DEPTH {
        return Err(InvalidJSON), false;
      }
      SkipSpaces();
      if pos == |input| {
        return Err(InvalidJSON), false;
      }
      if input[pos] == '{' {
        r, lossy := ReadObject(depth);
      } else if input[pos] == '[' {
        r, lossy := ReadArray(depth);
      } else {
        r, lossy := ReadScalarToken();
      }
    }

    method ReadArray(depth: nat) returns (r: Result<Value, JsonError>, ghost lossy: bool)
      requires Valid() && depth <= MAX_JSON_DEPTH && pos < |input| && input[pos] == '['
      modifies this
      ensures Valid() && pos >= old(pos)
      ensures match ReadItems(old(Rest())[1..], MAX_JSON_DEPTH - depth - 1, [], false, true)
              case Failed(error) => r == Err(error)
              case Parsed(v, l, rest) => r == Ok(v) && lossy == l && Rest() == rest && pos > old(pos)
      decreases MAX_JSON_DEPTH + 1 - depth, 0
    {
      hide ReadKey, ReadScalar, ReadFields, ReadValue;
      ghost var budget := MAX_JSON_DEPTH - depth - 1;
      ghost var whole := ReadItems(Rest()[1..], budget, [], false, true);
      pos := pos + 1;
      var items, first := [], true;
      lossy := false;
      while true
        invariant Valid() && pos > old(pos)
        invariant ReadItems(Rest(), budget, items, lossy, first) == whole
        decreases |input| - pos
      {
        SkipSpaces();
        if pos == |input| {
          return Err(InvalidJSON), lossy;
        }
        if input[pos] == ']' {
          pos := pos + 1;
          return Ok(Arr(items)), lossy;
        }
        if !first {
          if input[pos] != ',' {
            return Err(InvalidJSON), lossy;
          }
          pos := pos + 1;
        }
        ghost var childLossy;
        r, childLossy := ReadJSONValue(depth + 1);
        if r.Err? {
          return;
        }
        items, first, lossy := items + [r.value], false, lossy || childLossy;
      }
    }

    /** A key, its colon and its value. */
    method ReadMember(depth: nat, members: map<string, Value>)
      returns (r: Result<(string, Value), JsonError>, ghost lossy: bool)
      requires Valid() && depth <= MAX_JSON_DEPTH
      modifies this
      ensures Valid() && pos >= old(pos)
      ensures match ReadKey(old(Rest()), members)
              case NoKey(error) => r == Err(error)
              case Key(key, keyLossy, rest) =>
                match ReadValue(rest, MAX_JSON_DEPTH - depth - 1)
                case Failed(error) => r == Err(error)
                case Parsed(v, l, after) =>
                  r == Ok((key, v)) && lossy == (keyLossy || l) && Rest() == after && pos > old(pos)
      decreases MAX_JSON_DEPTH + 1 - depth, 0
    {
      hide ReadKey, ReadScalar, ReadItems, ReadFields, ReadValue;
      var key, keyLossy := ReadObjectKey(members);
      if key.Err? {
        return Err(key.error), false;
      }
      var value, valueLossy := ReadJSONValue(depth + 1);
      if value.Err? {
        return Err(value.error), false;
      }
      return Ok((key.value, value.value)), keyLossy || valueLossy;
    }

    /** Moves to the next member of an object, past the comma, or past the closing brace. */
    method NextMember(first: bool) returns (here: Next)
      requires Valid()
      modifies this
      ensures Valid() && pos >= old(pos) && (here == Closed ==> pos > old(pos))
      ensures match here
              case Absent => FieldsFront(old(Rest()), first) == (Absent, old(Rest()))
              case _ => FieldsFront(old(Rest()), first) == (here, Rest())
    {
      hide ReadKey, ReadScalar, ReadItems, ReadValue, ReadFields;
      SkipSpaces();
      if pos == |input| {
        return Absent;
      }
      if input[pos] == '}' {
        pos := pos + 1;
        return Closed;
      }
      if !first {
        if input[pos] != ',' {
          return Absent;
        }
        pos := pos + 1;
        SkipSpaces();
      }
      return Present;
    }

    method ReadObject(depth: nat) returns (r: Result<Value, JsonError>, ghost lossy: bool)
      requires Valid() && depth <= MAX_JSON_DEPTH && pos < |input| && input[pos] == '{'
      modifies this
      ensures Valid() && pos >= old(pos)
      ensures match ReadFields(old(Rest())[1..], MAX_JSON_DEPTH - depth - 1, map[], false, true)
              case Failed(error) => r == Err(error)
              case Parsed(v, l, rest) => r == Ok(v) && lossy == l && Rest() == rest && pos > old(pos)
      decreases MAX_JSON_DEPTH + 1 - depth, 1
    {
      hide ReadKey, ReadScalar, ReadItems, ReadValue, ReadFields, FieldsFront;
      ghost var budget := MAX_JSON_DEPTH - depth - 1;
      ghost var whole := ReadFields(Rest()[1..], budget, map[], false, true);
      pos := pos + 1;
      var members: map<string, Value>, first := map[], true;
      lossy := false;
      while true
        invariant Valid() && pos > old(pos)
        invariant ReadFields(Rest(), budget, members, lossy, first) == whole
        decreases |input| - pos
      {
        ghost var before := Rest();
        var here := NextMember(first);
        FieldsAt(before, budget, members, lossy, first);
        if here == Absent {
          return Err(InvalidJSON), lossy;
        }
        if here == Closed {
          return Ok(Obj(members)), lossy;
        }
        var member, memberLossy := ReadMember(depth, members);
        if member.Err? {
          return Err(member.error), lossy;
        }
        members, first, lossy := members[member.value.0 := member.value.1], false, lossy || memberLossy;
      }
    }
  }

  /** What the front of the members left to read is: a closing brace, a member, or neither; and the text after it. */
  function FieldsFront(s: string, first: bool): (Next, string) {
    var t := SkipSpace(s);
    if t == "" then (Absent, s)
    else if t[0] == '}' then (Closed, t[1..])
    else if !first && t[0] != ',' then (Absent, s)
    else (Present, if first then t else SkipSpace(t[1..]))
  }

  lemma FieldsAt(s: string, budget: int, read: map<string, Value>, lossy: bool, first: bool)
    ensures ReadFields(s, budget, read, lossy, first) ==
            match FieldsFront(s, first)
            case (Absent, _) => Failed(InvalidJSON)
            case (Closed, rest) => Parsed(Obj(read), lossy, rest)
            case (Present, rest) =>
              match ReadKey(rest, read)
              case NoKey(error) => Failed(error)
              case Key(key, keyLossy, after) =>
                match ReadValue(after, budget)
                case Failed(error) => Failed(error)
                case Parsed(v, l, tail) => ReadFields(tail, budget, read[key := v], lossy || keyLossy || l, false)
  {
    hide ReadKey, ReadValue, SkipSpace;
  }

  lemma {:induction false} BodyIsSuffix(s: string)
    requires Strings.ReadBody(s).Some?
    ensures var rest := Strings.ReadBody(s).value.rest; |rest| <= |s| && s[|s| - |rest|..] == rest
    decreases |s|
  {
    if s[0] != '"' {
      var unit := Strings.ReadUnit(s).value;
      BodyIsSuffix(s[unit.size..]);
    }
  }

  lemma ScalarIsSuffix(s: string)
    requires s != "" && ReadScalar(s).Parsed?
    ensures var rest := ReadScalar(s).rest; |rest| <= |s| && s[|s| - |rest|..] == rest
  {
    if s[0] == '"' {
      BodyIsSuffix(s[1..]);
    } else if s[0] != 'n' && s[0] != 't' && s[0] != 'f' {
      Numbers.ScanSplits(s);
    }
  }

  // ---------------------------------------------------------------- writer

  class Buffer {
    var text: string

    constructor ()
      ensures text == ""
    {
      text := "";
    }

    method WriteString(s: string)
      modifies this
      ensures text == old(text) + s
    {
      text := text + s;
    }
  }

  method CollectKeys(members: map<string, Value>) returns (keys: seq<string>)
    ensures forall k :: k in keys <==> k in members
    ensures forall i, j | 0 <= i < j < |keys| :: keys[i] != keys[j]
  {
    keys := [];
    var remaining := members.Keys;
    while remaining != {}
      invariant remaining <= members.Keys
      invariant forall k :: k in keys <==> k in members && k !in remaining
      invariant forall i, j | 0 <= i < j < |keys| :: keys[i] != keys[j]
    {
      var key :| key in remaining;
      keys := keys + [key];
      remaining := remaining - {key};
    }
  }

  /** sort.Strings on distinct keys. */
  method SortKeys(keys: seq<string>) returns (sorted: seq<string>)
    requires forall i, j | 0 <= i < j < |keys| :: keys[i] != keys[j]
    ensures Sorted(sorted) && forall k :: k in sorted <==> k in keys
  {
    sorted := [];
    for i := 0 to |keys|
      invariant Sorted(sorted) && forall k :: k in sorted <==> k in keys[..i]
    {
      assert keys[..i + 1] == keys[..i] + [keys[i]];
      sorted := Insert(keys[i], sorted);
    }
    assert keys[..|keys|] == keys;
  }

  /** What is still to be written once the first i elements are. */
  ghost function ItemsFrom(trees: seq<Tree>, i: nat): string
    requires i <= |trees|
  {
    if i == 0 then RenderItems(trees) else RenderMoreItems(trees[i..])
  }

  ghost function FieldsFrom(fields: seq<Field>, i: nat): string
    requires i <= |fields|
  {
    if i == 0 then RenderFields(fields) else RenderMoreFields(fields[i..])
  }

  /** writeCanonicalJSON appends exactly the canonical text of the value. */
  method WriteCanonicalJSON(output: Buffer, value: Value)
    modifies output
    ensures output.text == old(output.text) + Print(value)
    decreases value, 2
  {
    match value
    case Null => output.WriteString("null");
    case Bool(b) => output.WriteString(if b then "true" else "false");
    case Str(s) => output.WriteString(Strings.Quote(s));
    case Num(text) => output.WriteString(text);
    case Arr(items) => WriteArray(output, value);
    case Obj(members) => WriteObject(output, value);
  }

  lemma ItemsStep(trees: seq<Tree>, i: nat)
    requires i < |trees|
    ensures ItemsFrom(trees, i) == (if i > 0 then "," else "") + Render(trees[i]) + ItemsFrom(trees, i + 1)
  {
    assert trees[i..][1..] == trees[i + 1..];
  }

  lemma FieldsStep(fields: seq<Field>, i: nat)
    requires i < |fields|
    ensures FieldsFrom(fields, i) == (if i > 0 then "," else "") + RenderField(fields[i]) + FieldsFrom(fields, i + 1)
  {
    assert fields[i..][1..] == fields[i + 1..];
  }

  method WriteArray(output: Buffer, value: Value)
    requires value.Arr?
    modifies output
    ensures output.text == old(output.text) + Print(value)
    decreases value, 0
  {
    hide RenderItems, ItemsFrom;
    var items := value.items;
    ghost var trees := CanonTree(value).trees;
    output.WriteString("[");
    assert ItemsFrom(trees, 0) == RenderItems(trees) by { ItemsBounds(trees); }
    for index := 0 to |items|
      invariant output.text + ItemsFrom(trees, index) == old(output.text) + "[" + RenderItems(trees)
    {
      ItemsStep(trees, index);
      if index > 0 {
        output.WriteString(",");
      }
      WriteCanonicalJSON(output, items[index]);
    }
    ItemsBounds(trees);
    assert output.text == old(output.text) + "[" + RenderItems(trees);
    output.WriteString("]");
  }

  lemma ItemsBounds(trees: seq<Tree>)
    ensures ItemsFrom(trees, 0) == RenderItems(trees) && ItemsFrom(trees, |trees|) == ""
  {
  }

  lemma FieldsBounds(fields: seq<Field>)
    ensures FieldsFrom(fields, 0) == RenderFields(fields) && FieldsFrom(fields, |fields|) == ""
  {
  }

  method WriteMember(output: Buffer, value: Value, key: string, first: bool)
    requires value.Obj? && key in value.members
    modifies output
    ensures output.text == old(output.text)
                           + ((if first then "" else ",") + RenderField(Field(key, CanonTree(value.members[key]))))
    decreases value, 0
  {
    if !first {
      output.WriteString(",");
    }
    output.WriteString(Strings.Quote(key));
    output.WriteString(":");
    WriteCanonicalJSON(output, value.members[key]);
  }

  method WriteObject(output: Buffer, value: Value)
    requires value.Obj?
    modifies output
    ensures output.text == old(output.text) + Print(value)
    decreases value, 1
  {
    hide RenderFields, FieldsFrom, RenderField;
    var collected := CollectKeys(value.members);
    var keys := SortKeys(collected);
    SortedUnique(keys, SortedKeys(value.members.Keys));
    ghost var fields := CanonTree(value).fields;
    output.WriteString("{");
    FieldsBounds(fields);
    for index := 0 to |keys|
      invariant output.text + FieldsFrom(fields, index) == old(output.text) + "{" + RenderFields(fields)
    {
      FieldsStep(fields, index);
      assert keys[index] in keys;
      WriteMember(output, value, keys[index], index == 0);
      assert fields[index] == Field(keys[index], CanonTree(value.members[keys[index]]));
    }
    assert output.text == old(output.text) + "{" + RenderFields(fields);
    output.WriteString("}");
  }

  // ---------------------------------------------------------------- whole runs

  method ParseJSON(input: string) returns (r: Result<Value, JsonError>)
    ensures r == ParseText(input)
  {
    if input == "" {
      return Err(InvalidJSON);
    }
    if Utf8.Size(input) > MAX_ARGUMENTS_BYTES {
      return Err(ArgumentsTooLarge);
    }
    var encoded := Strings.ValidateJSONStringEncoding(input);
    if !encoded {
      return Err(InvalidJSON);
    }
    var decoder := new Decoder(input);
    var value, _ := decoder.ReadJSONValue(0);
    if value.Err? {
      return value;
    }
    decoder.SkipSpaces();
    if decoder.pos < |decoder.input| {
      return Err(InvalidJSON);
    }
    return value;
  }

  method CanonicalizeBytes(input: seq<Utf8.Byte>) returns (r: Result<seq<Utf8.Byte>, JsonError>)
    ensures r == CanonicalizeJSON(input)
  {
    var text := Utf8.Decode(input);
    if text.None? {
      return Err(InvalidJSON);
    }
    var value := ParseJSON(TrimSpace(text.value));
    if value.Err? {
      return Err(value.error);
    }
    var output := new Buffer();
    WriteCanonicalJSON(output, value.value);
    assert output.text == Print(value.value);
    return Ok(Utf8.Encode(output.text));
  }
}
