/**
  JSON values, their spellings, and the reader of internal/canonicalaction/action.go
  (readJSONValue), which normalizes numbers, refuses a repeated object key, and refuses
  nesting beyond a limit.
 */
module Json {
  import opened Wrappers
  import Numbers
  import Strings

  datatype JsonError = InvalidJSON | DuplicateObjectKey | ArgumentsTooLarge

  /** A parsed value.  Objects are maps; a number is its canonical text. */
  datatype Value =
    | Null
    | Bool(b: bool)
    | Num(text: string)
    | Str(s: string)
    | Arr(items: seq<Value>)
    | Obj(members: map<string, Value>)

  /** A spelling of a value: members in some order, numbers spelled in some way. */
  datatype Tree =
    | TNull
    | TBool(b: bool)
    | TNum(text: string)
    | TStr(s: string)
    | TArr(trees: seq<Tree>)
    | TObj(fields: seq<Field>)

  datatype Field = Field(key: string, tree: Tree)

  // ---------------------------------------------------------------- spelling

  function Render(t: Tree): string
    decreases t, 0
  {
    match t
    case TNull => "null"
    case TBool(b) => if b then "true" else "false"
    case TNum(text) => text
    case TStr(s) => Strings.Quote(s)
    case TArr(trees) => "[" + RenderItems(trees) + "]"
    case TObj(fields) => "{" + RenderFields(fields) + "}"
  }

  function RenderItems(trees: seq<Tree>): string
    decreases trees, 1
  {
    if trees == [] then "" else Render(trees[0]) + RenderMoreItems(trees[1..])
  }

  function RenderMoreItems(trees: seq<Tree>): string
    decreases trees, 1
  {
    if trees == [] then "" else "," + Render(trees[0]) + RenderMoreItems(trees[1..])
  }

  function RenderField(field: Field): string
    decreases field, 1
  {
    Strings.Quote(field.key) + ":" + Render(field.tree)
  }

  function RenderFields(fields: seq<Field>): string
    decreases fields, 1
  {
    if fields == [] then "" else RenderField(fields[0]) + RenderMoreFields(fields[1..])
  }

  function RenderMoreFields(fields: seq<Field>): string
    decreases fields, 1
  {
    if fields == [] then "" else "," + RenderField(fields[0]) + RenderMoreFields(fields[1..])
  }

  // ---------------------------------------------------------------- meaning of a spelling

  /** Numbers are accepted, keys of an object are distinct, and nesting fits the budget. */
  predicate ValidTree(t: Tree, budget: int)
    decreases t
  {
    && budget >= 0
    && match t
       case TNum(text) => Numbers.Normalize(text).Some?
       case TArr(trees) => forall i | 0 <= i < |trees| :: ValidTree(trees[i], budget - 1)
       case TObj(fields) =>
         && (forall i | 0 <= i < |fields| :: ValidTree(fields[i].tree, budget - 1))
         && DistinctKeys(fields)
       case _ => true
  }

  predicate DistinctKeys(fields: seq<Field>) {
    forall i, j | 0 <= i < j < |fields| :: fields[i].key != fields[j].key
  }

  function Denote(t: Tree, budget: int): Value
    requires ValidTree(t, budget)
    decreases t, 0
  {
    match t
    case TNull => Null
    case TBool(b) => Bool(b)
    case TNum(text) => Num(Numbers.Normalize(text).value)
    case TStr(s) => Str(s)
    case TArr(trees) => Arr(DenoteItems(trees, budget - 1))
    case TObj(fields) => Obj(DenoteFields(fields, budget - 1, map[]))
  }

  function DenoteItems(trees: seq<Tree>, budget: int): seq<Value>
    requires forall i | 0 <= i < |trees| :: ValidTree(trees[i], budget)
    decreases trees, 1
  {
    if trees == [] then [] else [Denote(trees[0], budget)] + DenoteItems(trees[1..], budget)
  }

  /** The members given by fields, added to those already read. */
  function DenoteFields(fields: seq<Field>, budget: int, read: map<string, Value>): map<string, Value>
    requires forall i | 0 <= i < |fields| :: ValidTree(fields[i].tree, budget)
    decreases fields, 1
  {
    if fields == [] then read
    else DenoteFields(fields[1..], budget, read[fields[0].key := Denote(fields[0].tree, budget)])
  }

  // ---------------------------------------------------------------- reader

  /** A value, whether any string in it lost a surrogate, and the text after it. */
  datatype Parsed = Parsed(value: Value, lossy: bool, rest: string) | Failed(error: JsonError)

  predicate IsSpace(c: char) { c == ' ' || c == '\t' || c == '\n' || c == '\r' }

  function SkipSpace(s: string): (r: string)
    ensures |r| <= |s| && (r != "" ==> !IsSpace(r[0]))
  {
    if s != "" && IsSpace(s[0]) then SkipSpace(s[1..]) else s
  }

  function ReadWord(s: string, word: string, value: Value): Parsed {
    if |word| <= |s| && s[..|word|] == word then Parsed(value, false, s[|word|..]) else Failed(InvalidJSON)
  }

  function ReadNumber(s: string): (p: Parsed)
    ensures p.Parsed? ==> |p.rest| < |s|
  {
    match Numbers.ScanNumber(s)
    case None => Failed(InvalidJSON)
    case Some((_, rest)) =>
      Numbers.ScanSplits(s);
      match Numbers.Normalize(s[..|s| - |rest|])
      case None => Failed(InvalidJSON)
      case Some(text) => Parsed(Num(text), false, rest)
  }

  function ReadScalar(s: string): (p: Parsed)
    requires s != ""
    ensures p.Parsed? ==> |p.rest| < |s|
  {
    match s[0]
    case '"' => (match Strings.ReadBody(s[1..])
                 case None => Failed(InvalidJSON)
                 case Some(body) => Parsed(Str(body.content), body.lossy, body.rest))
    case 'n' => ReadWord(s, "null", Null)
    case 't' => ReadWord(s, "true", Bool(true))
    case 'f' => ReadWord(s, "false", Bool(false))
    case _ => ReadNumber(s)
  }

  /** An object key, the text after its colon, or the error met on the way. */
  datatype KeyRead = Key(key: string, lossy: bool, rest: string) | NoKey(error: JsonError)

  /** A key and its colon.  A repeated key is refused before the colon is looked for. */
  function ReadKey(s: string, read: map<string, Value>): (k: KeyRead)
    ensures k.Key? ==> |k.rest| < |s|
  {
    if s == "" || s[0] != '"' then NoKey(InvalidJSON)
    else match Strings.ReadBody(s[1..])
      case None => NoKey(InvalidJSON)
      case Some(body) =>
        if body.content in read then NoKey(DuplicateObjectKey)
        else
          var colon := SkipSpace(body.rest);
          if colon == "" || colon[0] != ':' then NoKey(InvalidJSON)
          else Key(body.content, body.lossy, colon[1..])
  }

  /** One value from the front of s.  The budget is the nesting still allowed. */
  function ReadValue(s: string, budget: int): (p: Parsed)
    ensures p.Parsed? ==> |p.rest| < |s|
    decreases |s|, 1
  {
    var t := SkipSpace(s);
    if budget < 0 || t == "" then Failed(InvalidJSON)
    else if t[0] == '{' then ReadFields(t[1..], budget - 1, map[], false, true)
    else if t[0] == '[' then ReadItems(t[1..], budget - 1, [], false, true)
    else ReadScalar(t)
  }

  /** Array elements up to the closing bracket; first says that none has been read. */
  function ReadItems(s: string, budget: int, read: seq<Value>, lossy: bool, first: bool): (p: Parsed)
    ensures p.Parsed? ==> |p.rest| < |s|
    decreases |s|, 2
  {
    var t := SkipSpace(s);
    if t == "" then Failed(InvalidJSON)
    else if t[0] == ']' then Parsed(Arr(read), lossy, t[1..])
    else if !first && t[0] != ',' then Failed(InvalidJSON)
    else
      var p := ReadValue(if first then t else t[1..], budget);
      if p.Failed? then p else ReadItems(p.rest, budget, read + [p.value], lossy || p.lossy, false)
  }

  /** Object members up to the closing brace. */
  function ReadFields(s: string, budget: int, read: map<string, Value>, lossy: bool, first: bool): (p: Parsed)
    ensures p.Parsed? ==> |p.rest| < |s|
    decreases |s|, 2
  {
    var t := SkipSpace(s);
    if t == "" then Failed(InvalidJSON)
    else if t[0] == '}' then Parsed(Obj(read), lossy, t[1..])
    else if !first && t[0] != ',' then Failed(InvalidJSON)
    else
      match ReadKey(if first then t else SkipSpace(t[1..]), read)
      case NoKey(error) => Failed(error)
      case Key(key, keyLossy, rest) =>
        var p := ReadValue(rest, budget);
        if p.Failed? then p
        else ReadFields(p.rest, budget, read[key := p.value], lossy || keyLossy || p.lossy, false)
  }

  // ---------------------------------------------------------------- reading back a spelling

  predicate StartsValue(s: string) {
    s != "" && !IsSpace(s[0]) && s[0] != ']' && s[0] != '}' && s[0] != ','
  }

  lemma RenderStarts(t: Tree, budget: int)
    requires ValidTree(t, budget)
    ensures StartsValue(Render(t))
  {
    if t.TNum? {
      Numbers.ScanSplits(t.text);
      assert t.text[0] == '-' || Numbers.IsDigit(t.text[0]);
    }
  }

  lemma ReadNumberText(text: string, rest: string)
    requires Numbers.Normalize(text).Some? && Numbers.Delimited(rest)
    ensures ReadNumber(text + rest) == Parsed(Num(Numbers.Normalize(text).value), false, rest)
    ensures text != "" && (text[0] == '-' || Numbers.IsDigit(text[0]))
  {
    var l := Numbers.LiteralOf(text);
    Numbers.ScanText(l, rest);
    Numbers.SignOf(l);
    assert (text + rest)[..|text|] == text;
  }

  lemma ReadStringText(content: string, rest: string)
    ensures ReadScalar(Strings.Quote(content) + rest) == Parsed(Str(content), false, rest)
  {
    hide Numbers.Normalize, Numbers.ScanNumber;
    var s := Strings.Quote(content) + rest;
    var tail := Strings.Escape(content) + "\"" + rest;
    assert s == "\"" + tail;
    assert s[1..] == tail;
    Strings.ReadEscaped(content, rest);
  }

  lemma ReadWordText(word: string, rest: string)
    requires word == "null" || word == "true" || word == "false"
    ensures ReadScalar(word + rest) ==
            Parsed(if word == "null" then Null else Bool(word == "true"), false, rest)
  {
    hide Numbers.Normalize, Numbers.ScanNumber;
    var s := word + rest;
    assert s[..|word|] == word && s[|word|..] == rest;
    assert s[0] == word[0];
  }

  lemma ReadScalarText(t: Tree, budget: int, rest: string)
    requires ValidTree(t, budget) && !t.TArr? && !t.TObj? && Numbers.Delimited(rest)
    ensures ReadValue(Render(t) + rest, budget) == Parsed(Denote(t, budget), false, rest)
  {
    hide Numbers.Normalize, Numbers.ScanNumber, ReadScalar;
    var s := Render(t) + rest;
    RenderStarts(t, budget);
    assert s[0] == Render(t)[0];
    match t
    case TNum(text) => ReadNumberScalar(text, rest);
    case TStr(content) => ReadStringText(content, rest);
    case TNull => ReadWordText("null", rest);
    case TBool(b) => ReadWordText(if b then "true" else "false", rest);
  }

  lemma ReadNumberScalar(text: string, rest: string)
    requires Numbers.Normalize(text).Some? && Numbers.Delimited(rest)
    ensures ReadScalar(text + rest) == Parsed(Num(Numbers.Normalize(text).value), false, rest)
    ensures text != "" && (text[0] == '-' || Numbers.IsDigit(text[0]))
  {
    hide Numbers.Normalize, Numbers.ScanNumber, Strings.ReadBody;
    ReadNumberText(text, rest);
    assert (text + rest)[0] == text[0];
  }

  /** Reading any spelling of a value gives the value: order of members and spelling of numbers
      do not matter, and no string is altered. */
  lemma {:induction false} ReadRendered(t: Tree, budget: int, rest: string)
    requires ValidTree(t, budget) && Numbers.Delimited(rest)
    ensures ReadValue(Render(t) + rest, budget) == Parsed(Denote(t, budget), false, rest)
    decreases t, 0
  {
    hide ReadScalar, Numbers.Normalize;
    var s := Render(t) + rest;
    match t
    case TArr(trees) =>
      assert s == "[" + (RenderItems(trees) + "]" + rest);
      ReadRenderedItems(trees, budget - 1, rest);
    case TObj(fields) =>
      assert s == "{" + (RenderFields(fields) + "}" + rest);
      ReadRenderedFields(fields, budget - 1, rest);
    case _ =>
      ReadScalarText(t, budget, rest);
  }

  lemma {:induction false} ReadRenderedItems(trees: seq<Tree>, budget: int, rest: string)
    requires forall i | 0 <= i < |trees| :: ValidTree(trees[i], budget)
    ensures ReadItems(RenderItems(trees) + "]" + rest, budget, [], false, true) ==
            Parsed(Arr(DenoteItems(trees, budget)), false, rest)
    decreases trees, 2
  {
    var s := RenderItems(trees) + "]" + rest;
    if trees == [] {
      assert s == "]" + rest;
    } else {
      var more := RenderMoreItems(trees[1..]) + "]" + rest;
      assert s == Render(trees[0]) + more;
      RenderStarts(trees[0], budget);
      assert s[0] == Render(trees[0])[0];
      MoreItemsFollow(trees[1..], rest);
      ReadRendered(trees[0], budget, more);
      var v := Denote(trees[0], budget);
      assert [] + [v] == [v];
      ReadMoreItems(trees[1..], budget, [v], rest);
    }
  }

  lemma MoreItemsFollow(trees: seq<Tree>, rest: string)
    ensures Numbers.Delimited(RenderMoreItems(trees) + "]" + rest)
  {
  }

  lemma {:induction false} ReadMoreItems(trees: seq<Tree>, budget: int, read: seq<Value>, rest: string)
    requires forall i | 0 <= i < |trees| :: ValidTree(trees[i], budget)
    ensures ReadItems(RenderMoreItems(trees) + "]" + rest, budget, read, false, false) ==
            Parsed(Arr(read + DenoteItems(trees, budget)), false, rest)
    decreases trees, 1
  {
    hide ReadScalar, Numbers.Normalize;
    var s := RenderMoreItems(trees) + "]" + rest;
    if trees == [] {
      assert s == "]" + rest;
      assert read + [] == read;
    } else {
      var more := RenderMoreItems(trees[1..]) + "]" + rest;
      assert s == "," + (Render(trees[0]) + more);
      assert s[1..] == Render(trees[0]) + more;
      MoreItemsFollow(trees[1..], rest);
      ReadRendered(trees[0], budget, more);
      var v := Denote(trees[0], budget);
      ReadMoreItems(trees[1..], budget, read + [v], rest);
      assert read + [v] + DenoteItems(trees[1..], budget) == read + ([v] + DenoteItems(trees[1..], budget));
    }
  }

  lemma MoreFieldsFollow(fields: seq<Field>, rest: string)
    ensures Numbers.Delimited(RenderMoreFields(fields) + "}" + rest)
  {
  }

  lemma ReadKeyText(key: string, read: map<string, Value>, more: string)
    requires key !in read
    ensures ReadKey(Strings.Quote(key) + ":" + more, read) == Key(key, false, more)
  {
    var s := Strings.Quote(key) + ":" + more;
    var afterKey := ":" + more;
    assert s[1..] == Strings.Escape(key) + "\"" + afterKey;
    Strings.ReadEscaped(key, afterKey);
    assert afterKey[1..] == more;
  }

  /** One member, then whatever follows it. */
  lemma {:induction false} ReadField(field: Field, budget: int, read: map<string, Value>, first: bool, more: string)
    requires ValidTree(field.tree, budget) && field.key !in read && Numbers.Delimited(more)
    ensures ReadFields((if first then "" else ",") + (RenderField(field) + more), budget, read, false, first) ==
            ReadFields(more, budget, read[field.key := Denote(field.tree, budget)], false, false)
    decreases field, 2
  {
    hide ReadScalar, ReadItems, Numbers.Normalize, ReadKey;
    var member := RenderField(field) + more;
    var s := (if first then "" else ",") + member;
    assert member == Strings.Quote(field.key) + ":" + (Render(field.tree) + more);
    ReadKeyText(field.key, read, Render(field.tree) + more);
    ReadRendered(field.tree, budget, more);
    if first {
      assert s == member;
    } else {
      assert s[1..] == member;
    }
  }

  lemma {:induction false} ReadRenderedFields(fields: seq<Field>, budget: int, rest: string)
    requires forall i | 0 <= i < |fields| :: ValidTree(fields[i].tree, budget)
    requires DistinctKeys(fields)
    ensures ReadFields(RenderFields(fields) + "}" + rest, budget, map[], false, true) ==
            Parsed(Obj(DenoteFields(fields, budget, map[])), false, rest)
    decreases fields, 4
  {
    var s := RenderFields(fields) + "}" + rest;
    if fields == [] {
      assert s == "}" + rest;
    } else {
      var more := RenderMoreFields(fields[1..]) + "}" + rest;
      assert s == "" + (RenderField(fields[0]) + more);
      MoreFieldsFollow(fields[1..], rest);
      ReadField(fields[0], budget, map[], true, more);
      ReadMoreFields(fields[1..], budget, map[fields[0].key := Denote(fields[0].tree, budget)], rest);
    }
  }

  lemma {:induction false} ReadMoreFields(fields: seq<Field>, budget: int, read: map<string, Value>, rest: string)
    requires forall i | 0 <= i < |fields| :: ValidTree(fields[i].tree, budget) && fields[i].key !in read
    requires DistinctKeys(fields)
    ensures ReadFields(RenderMoreFields(fields) + "}" + rest, budget, read, false, false) ==
            Parsed(Obj(DenoteFields(fields, budget, read)), false, rest)
    decreases fields, 3
  {
    var s := RenderMoreFields(fields) + "}" + rest;
    if fields == [] {
      assert s == "}" + rest;
    } else {
      var more := RenderMoreFields(fields[1..]) + "}" + rest;
      assert s == "," + (RenderField(fields[0]) + more);
      MoreFieldsFollow(fields[1..], rest);
      ReadField(fields[0], budget, read, false, more);
      ReadMoreFields(fields[1..], budget, read[fields[0].key := Denote(fields[0].tree, budget)], rest);
    }
  }

  // ---------------------------------------------------------------- what the reader returns

  /** Values the reader can return: canonical numbers and nesting within the budget. */
  predicate WellFormed(v: Value, budget: int)
    decreases v
  {
    && budget >= 0
    && match v
       case Num(text) => Numbers.Normalize(text) == Some(text)
       case Arr(items) => forall i | 0 <= i < |items| :: WellFormed(items[i], budget - 1)
       case Obj(members) => forall k | k in members :: WellFormed(members[k], budget - 1)
       case _ => true
  }

  lemma ReadNumberWellFormed(s: string)
    requires ReadNumber(s).Parsed?
    ensures var v := ReadNumber(s).value; v.Num? && Numbers.Normalize(v.text) == Some(v.text)
  {
    hide Numbers.ScanNumber, Numbers.Normalize;
    var (_, rest) := Numbers.ScanNumber(s).value;
    Numbers.ScanSplits(s);
    Numbers.NormalizeFixedPoint(s[..|s| - |rest|]);
  }

  lemma ReadScalarWellFormed(s: string, budget: nat)
    requires s != "" && ReadScalar(s).Parsed?
    ensures WellFormed(ReadScalar(s).value, budget)
  {
    hide ReadNumber, Numbers.Normalize;
    if s[0] != '"' && s[0] != 'n' && s[0] != 't' && s[0] != 'f' {
      ReadNumberWellFormed(s);
    }
  }

  /** Every value read is well formed within the budget it was read with. */
  lemma {:induction false} ReadWellFormed(s: string, budget: int)
    requires ReadValue(s, budget).Parsed?
    ensures WellFormed(ReadValue(s, budget).value, budget)
    decreases |s|, 1
  {
    hide ReadScalar, Numbers.Normalize;
    var t := SkipSpace(s);
    if t[0] == '{' {
      ReadFieldsWellFormed(t[1..], budget - 1, map[], false, true);
    } else if t[0] == '[' {
      ReadItemsWellFormed(t[1..], budget - 1, [], false, true);
    } else {
      ReadScalarWellFormed(t, budget);
    }
  }

  lemma {:induction false} ReadItemsWellFormed(s: string, budget: int, read: seq<Value>, lossy: bool, first: bool)
    requires ReadItems(s, budget, read, lossy, first).Parsed?
    requires forall i | 0 <= i < |read| :: WellFormed(read[i], budget)
    ensures var v := ReadItems(s, budget, read, lossy, first).value;
            v.Arr? && forall i | 0 <= i < |v.items| :: WellFormed(v.items[i], budget)
    decreases |s|, 2
  {
    hide ReadScalar, Numbers.Normalize;
    var t := SkipSpace(s);
    if t[0] != ']' {
      var u := if first then t else t[1..];
      ReadWellFormed(u, budget);
      var p := ReadValue(u, budget);
      ReadItemsWellFormed(p.rest, budget, read + [p.value], lossy || p.lossy, false);
    }
  }

  lemma {:induction false} ReadFieldsWellFormed(s: string, budget: int, read: map<string, Value>, lossy: bool,
                                                first: bool)
    requires ReadFields(s, budget, read, lossy, first).Parsed?
    requires forall k | k in read :: WellFormed(read[k], budget)
    ensures var v := ReadFields(s, budget, read, lossy, first).value;
            v.Obj? && forall k | k in v.members :: WellFormed(v.members[k], budget)
    decreases |s|, 2
  {
    hide ReadScalar, Numbers.Normalize, ReadKey;
    var t := SkipSpace(s);
    if t[0] != '}' {
      var k := ReadKey(if first then t else SkipSpace(t[1..]), read);
      ReadWellFormed(k.rest, budget);
      var p := ReadValue(k.rest, budget);
      ReadFieldsWellFormed(p.rest, budget, read[k.key := p.value], lossy || k.lossy || p.lossy, false);
    }
  }
}
