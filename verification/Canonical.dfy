/**
  Canonical JSON (internal/canonicalaction/action.go: parseJSON, writeCanonicalJSON,
  CanonicalizeJSON): one text per value, with keys sorted at every level.
 */
module Canonical {
  import opened Wrappers
  import opened Json
  import Numbers
  import Strings
  import Syntax
  import Utf8

  const MAX_ARGUMENTS_BYTES := 0x10_0000
  const MAX_JSON_DEPTH := 64

  // ---------------------------------------------------------------- sorted keys

  predicate Sorted(keys: seq<string>) {
    forall i, j | 0 <= i < j < |keys| :: Utf8.Before(keys[i], keys[j])
  }

  lemma {:induction false} BeforeTotal(a: string, b: string)
    ensures a == b || Utf8.Before(a, b) || Utf8.Before(b, a)
  {
    if a != "" && b != "" && a[0] == b[0] {
      BeforeTotal(a[1..], b[1..]);
      assert a == [a[0]] + a[1..] && b == [b[0]] + b[1..];
    }
  }

  lemma {:induction false} BeforeStrict(a: string, b: string)
    requires Utf8.Before(a, b)
    ensures a != b && !Utf8.Before(b, a)
  {
    if a != "" && a[0] == b[0] {
      BeforeStrict(a[1..], b[1..]);
    }
  }

  lemma {:induction false} BeforeTransitive(a: string, b: string, c: string)
    requires Utf8.Before(a, b) && Utf8.Before(b, c)
    ensures Utf8.Before(a, c)
  {
    if a != "" && a[0] == b[0] == c[0] {
      BeforeTransitive(a[1..], b[1..], c[1..]);
    }
  }

  lemma PrependSorted(key: string, keys: seq<string>)
    requires Sorted(keys) && forall k | k in keys :: Utf8.Before(key, k)
    ensures Sorted([key] + keys)
  {
    var all := [key] + keys;
    forall i, j | 0 <= i < j < |all| ensures Utf8.Before(all[i], all[j]) {
      assert keys[j - 1] in keys;
    }
  }

  lemma BeforeAll(key: string, keys: seq<string>)
    requires Sorted(keys) && keys != [] && (key == keys[0] || Utf8.Before(key, keys[0]))
    ensures forall k | k in keys[1..] :: Utf8.Before(key, k)
  {
    forall k | k in keys[1..] ensures Utf8.Before(key, k) {
      var j :| 0 < j < |keys| && keys[j] == k;
      if key != keys[0] {
        BeforeTransitive(key, keys[0], k);
      }
    }
  }

  /** Insert a new key into sorted keys at its place. */
  function Insert(key: string, keys: seq<string>): (r: seq<string>)
    requires Sorted(keys) && key !in keys
    ensures Sorted(r)
    ensures forall k :: k in r <==> k == key || k in keys
  {
    if keys == [] then [key]
    else if Utf8.Before(key, keys[0]) then
      BeforeAll(key, keys);
      PrependSorted(key, keys);
      [key] + keys
    else
      var rest := Insert(key, keys[1..]);
      BeforeTotal(key, keys[0]);
      BeforeAll(keys[0], keys);
      PrependSorted(keys[0], rest);
      [keys[0]] + rest
  }

  /** The keys of an object in the order in which they are written. */
  ghost function SortedKeys(keys: set<string>): (r: seq<string>)
    ensures Sorted(r) && forall k :: k in r <==> k in keys
  {
    if keys == {} then [] else var k :| k in keys; Insert(k, SortedKeys(keys - {k}))
  }

  lemma SortedDistinct(keys: seq<string>)
    requires Sorted(keys)
    ensures forall i, j | 0 <= i < j < |keys| :: keys[i] != keys[j]
  {
    forall i, j | 0 <= i < j < |keys| ensures keys[i] != keys[j] {
      BeforeStrict(keys[i], keys[j]);
    }
  }

  /** There is only one way to write a set of keys in sorted order. */
  lemma {:induction false} SortedUnique(a: seq<string>, b: seq<string>)
    requires Sorted(a) && Sorted(b) && forall k :: k in a <==> k in b
    ensures a == b
  {
    if a != [] {
      assert a[0] in b;
    }
    if b != [] {
      assert b[0] in a;
    }
    if a != [] && b != [] {
      SortedHead(a, b);
      SortedHead(b, a);
      BeforeTotal(a[0], b[0]);
      SortedDistinct(a);
      SortedDistinct(b);
      forall k ensures k in a[1..] <==> k in b[1..] {
        assert k in a <==> k in b;
        assert a == [a[0]] + a[1..] && b == [b[0]] + b[1..];
        assert a[0] !in a[1..] && b[0] !in b[1..];
      }
      SortedUnique(a[1..], b[1..]);
      assert a == [a[0]] + a[1..] && b == [b[0]] + b[1..];
    }
  }

  lemma SortedHead(a: seq<string>, b: seq<string>)
    requires Sorted(a) && Sorted(b) && a != [] && b != [] && a[0] in b
    ensures !Utf8.Before(a[0], b[0])
  {
    var i :| 0 <= i < |b| && b[i] == a[0];
    if i > 0 && Utf8.Before(a[0], b[0]) {
      BeforeStrict(a[0], b[0]);
    } else if Utf8.Before(a[0], b[0]) {
      BeforeStrict(a[0], b[0]);
    }
  }

  // ---------------------------------------------------------------- canonical spelling

  /** The spelling that writeCanonicalJSON produces: sorted keys, canonical numbers. */
  ghost function CanonTree(v: Value): Tree {
    match v
    case Null => TNull
    case Bool(b) => TBool(b)
    case Num(text) => TNum(text)
    case Str(s) => TStr(s)
    case Arr(items) => TArr(seq(|items|, i requires 0 <= i < |items| => CanonTree(items[i])))
    case Obj(members) =>
      var keys := SortedKeys(members.Keys);
      TObj(seq(|keys|,
               i requires 0 <= i < |keys| => assert keys[i] in keys; Field(keys[i], CanonTree(members[keys[i]]))))
  }

  ghost function Print(v: Value): string { Render(CanonTree(v)) }

  lemma {:induction false} DenoteItemsAt(trees: seq<Tree>, budget: int, i: nat)
    requires (forall j | 0 <= j < |trees| :: ValidTree(trees[j], budget)) && i < |trees|
    ensures |DenoteItems(trees, budget)| == |trees| && DenoteItems(trees, budget)[i] == Denote(trees[i], budget)
  {
    if |trees| > 1 {
      DenoteItemsAt(trees[1..], budget, if i == 0 then 0 else i - 1);
    }
  }

  lemma {:induction false} DenoteFieldsKeys(fields: seq<Field>, budget: int, read: map<string, Value>)
    requires forall i | 0 <= i < |fields| :: ValidTree(fields[i].tree, budget)
    ensures var m := DenoteFields(fields, budget, read);
            forall k :: k in m <==> k in read || exists i :: 0 <= i < |fields| && fields[i].key == k
  {
    if fields != [] {
      var next := read[fields[0].key := Denote(fields[0].tree, budget)];
      DenoteFieldsKeys(fields[1..], budget, next);
      var m := DenoteFields(fields, budget, read);
      forall k ensures k in m <==> k in read || exists i :: 0 <= i < |fields| && fields[i].key == k {
        if exists i :: 0 <= i < |fields| && fields[i].key == k {
          var i :| 0 <= i < |fields| && fields[i].key == k;
          assert i > 0 ==> fields[1..][i - 1].key == k;
        }
        if k in m && k !in next {
          var i :| 0 <= i < |fields[1..]| && fields[1..][i].key == k;
          assert fields[i + 1].key == k;
        }
        assert fields[0].key in next;
      }
    }
  }

  lemma {:induction false} DenoteFieldsAt(fields: seq<Field>, budget: int, read: map<string, Value>)
    requires forall i | 0 <= i < |fields| :: ValidTree(fields[i].tree, budget)
    requires DistinctKeys(fields)
    ensures var m := DenoteFields(fields, budget, read);
            && (forall k | k in read && (forall i | 0 <= i < |fields| :: fields[i].key != k) ::
                k in m && m[k] == read[k])
            && (forall i | 0 <= i < |fields| ::
                fields[i].key in m && m[fields[i].key] == Denote(fields[i].tree, budget))
  {
    if fields != [] {
      var next := read[fields[0].key := Denote(fields[0].tree, budget)];
      DenoteFieldsAt(fields[1..], budget, next);
      var m := DenoteFields(fields, budget, read);
      assert forall i | 0 <= i < |fields[1..]| :: fields[1..][i].key != fields[0].key;
      forall i | 0 <= i < |fields| ensures fields[i].key in m && m[fields[i].key] == Denote(fields[i].tree, budget) {
        if i > 0 {
          assert fields[1..][i - 1] == fields[i];
        }
      }
    }
  }

  /** The canonical spelling is a spelling of the value. */
  lemma {:induction false} CanonDenotes(v: Value, budget: int)
    requires WellFormed(v, budget)
    ensures ValidTree(CanonTree(v), budget) && Denote(CanonTree(v), budget) == v
    decreases v
  {
    hide Numbers.Normalize;
    match v
    case Arr(items) =>
      var trees := CanonTree(v).trees;
      forall i | 0 <= i < |items| ensures ValidTree(trees[i], budget - 1) && Denote(trees[i], budget - 1) == items[i] {
        CanonDenotes(items[i], budget - 1);
      }
      forall i | 0 <= i < |items|
        ensures |DenoteItems(trees, budget - 1)| == |items| && DenoteItems(trees, budget - 1)[i] == items[i] {
        DenoteItemsAt(trees, budget - 1, i);
      }
      assert items == [] ==> trees == [];
      assert DenoteItems(trees, budget - 1) == items;
    case Obj(members) =>
      CanonObjectDenotes(v, budget);
    case _ =>
  }

  lemma {:induction false} CanonObjectDenotes(v: Value, budget: int)
    requires WellFormed(v, budget) && v.Obj?
    ensures ValidTree(CanonTree(v), budget) && Denote(CanonTree(v), budget) == v
    decreases v, 0
  {
    hide Numbers.Normalize, SortedKeys, DenoteFields, Insert;
    var members, keys := v.members, SortedKeys(v.members.Keys);
    var fields := CanonTree(v).fields;
    forall i | 0 <= i < |keys|
      ensures keys[i] in members && fields[i].key == keys[i]
      ensures ValidTree(fields[i].tree, budget - 1) && Denote(fields[i].tree, budget - 1) == members[keys[i]]
    {
      assert keys[i] in keys;
      CanonDenotes(members[keys[i]], budget - 1);
    }
    SortedDistinct(keys);
    FieldsAreMembers(fields, keys, members, budget - 1);
  }

  lemma FieldsAreMembers(fields: seq<Field>, keys: seq<string>, members: map<string, Value>, budget: int)
    requires |fields| == |keys| && (forall k :: k in keys <==> k in members)
    requires forall i, j | 0 <= i < j < |keys| :: keys[i] != keys[j]
    requires forall i | 0 <= i < |keys| ::
      fields[i].key == keys[i] && ValidTree(fields[i].tree, budget)
        && Denote(fields[i].tree, budget) == members[keys[i]]
    ensures DistinctKeys(fields) && DenoteFields(fields, budget, map[]) == members
  {
    hide ValidTree, Denote, DenoteFields;
    var m := DenoteFields(fields, budget, map[]);
    DenoteFieldsKeys(fields, budget, map[]);
    DenoteFieldsAt(fields, budget, map[]);
    forall k ensures k in m <==> k in members {
      if k in members {
        var i :| 0 <= i < |keys| && keys[i] == k;
        assert fields[i].key == k;
      }
    }
    forall k | k in members ensures m[k] == members[k] {
      var i :| 0 <= i < |keys| && keys[i] == k;
      assert m[fields[i].key] == Denote(fields[i].tree, budget);
    }
    assert m == members;
  }

  /** Reading what the canonical printer wrote gives back the value, whatever delimiter follows. */
  lemma ReadPrinted(v: Value, budget: int, rest: string)
    requires WellFormed(v, budget) && Numbers.Delimited(rest)
    ensures ReadValue(Print(v) + rest, budget) == Parsed(v, false, rest)
  {
    CanonDenotes(v, budget);
    ReadRendered(CanonTree(v), budget, rest);
  }

  /** Two values print the same text only if they are the same value. */
  lemma PrintInjective(v: Value, w: Value, budget: int)
    requires WellFormed(v, budget) && WellFormed(w, budget) && Print(v) == Print(w)
    ensures v == w
  {
    ReadPrinted(v, budget, "");
    ReadPrinted(w, budget, "");
    assert Print(v) + "" == Print(w) + "";
  }

  // ---------------------------------------------------------------- meaning

  /** What a value denotes: numbers are rationals, objects are maps, arrays are ordered. */
  datatype Meaning =
    | MNull
    | MBool(b: bool)
    | MNum(n: real)
    | MStr(s: string)
    | MArr(items: seq<Meaning>)
    | MObj(members: map<string, Meaning>)

  ghost function MeaningOf(v: Value, budget: int): Meaning
    requires WellFormed(v, budget)
    decreases v
  {
    match v
    case Null => MNull
    case Bool(b) => MBool(b)
    case Num(text) => MNum(Numbers.NumberValue(text))
    case Str(s) => MStr(s)
    case Arr(items) => MArr(seq(|items|, i requires 0 <= i < |items| => MeaningOf(items[i], budget - 1)))
    case Obj(members) => MObj(map k | k in members :: MeaningOf(members[k], budget - 1))
  }

  /** Values are equal exactly when they denote the same thing. */
  lemma {:induction false} MeaningInjective(v: Value, w: Value, budget: int)
    requires WellFormed(v, budget) && WellFormed(w, budget)
    ensures MeaningOf(v, budget) == MeaningOf(w, budget) <==> v == w
    decreases v
  {
    hide Numbers.Normalize, Numbers.NumberValue;
    if MeaningOf(v, budget) == MeaningOf(w, budget) {
      if v.Num? {
        Numbers.NormalizeUnique(v.text, w.text);
      } else if v.Arr? {
        var a, b := MeaningOf(v, budget).items, MeaningOf(w, budget).items;
        assert |v.items| == |a| == |b| == |w.items|;
        forall i | 0 <= i < |v.items| ensures v.items[i] == w.items[i] {
          assert a[i] == b[i];
          MeaningInjective(v.items[i], w.items[i], budget - 1);
        }
      } else if v.Obj? {
        var a, b := MeaningOf(v, budget).members, MeaningOf(w, budget).members;
        assert v.members.Keys == a.Keys == b.Keys == w.members.Keys;
        forall k | k in v.members ensures v.members[k] == w.members[k] {
          assert k in a && a[k] == b[k];
          MeaningInjective(v.members[k], w.members[k], budget - 1);
        }
        assert v.members == w.members;
      }
    }
  }

  // ---------------------------------------------------------------- parseJSON and CanonicalizeJSON on text

  /** unicode.IsSpace, the characters bytes.TrimSpace removes. */
  predicate IsUnicodeSpace(c: char) {
    || '\t' <= c <= '\r' || c == ' ' || c == '\U{85}' || c == '\U{A0}' || c == '\U{1680}'
    || '\U{2000}' <= c <= '\U{200A}' || c == '\U{2028}' || c == '\U{2029}' || c == '\U{202F}'
    || c == '\U{205F}' || c == '\U{3000}'
  }

  function TrimLeft(s: string): string {
    if s != "" && IsUnicodeSpace(s[0]) then TrimLeft(s[1..]) else s
  }

  function TrimRight(s: string): string {
    if s != "" && IsUnicodeSpace(s[|s| - 1]) then TrimRight(s[..|s| - 1]) else s
  }

  function TrimSpace(s: string): string { TrimRight(TrimLeft(s)) }

  /** The characters with Unicode's White_Space property. */
  const WHITE_SPACE: set<char> := {
    '\t', '\n', '\U{0B}', '\U{0C}', '\r', ' ', '\U{85}', '\U{A0}', '\U{1680}', '\U{2000}', '\U{2001}', '\U{2002}',
    '\U{2003}', '\U{2004}', '\U{2005}', '\U{2006}', '\U{2007}', '\U{2008}', '\U{2009}', '\U{200A}', '\U{2028}',
    '\U{2029}', '\U{202F}', '\U{205F}', '\U{3000}'}

  ghost predicate Blank(s: string) { forall i | 0 <= i < |s| :: s[i] in WHITE_SPACE }

  /** t is what is left of s between its outermost characters that are not white space. */
  ghost predicate Trims(s: string, t: string, left: string, right: string) {
    && s == left + t + right && Blank(left) && Blank(right)
    && (t != "" ==> t[0] !in WHITE_SPACE && t[|t| - 1] !in WHITE_SPACE)
  }

  lemma SpaceIsWhiteSpace(c: char)
    ensures IsUnicodeSpace(c) <==> c in WHITE_SPACE
  {
    var n := c as int;
    assert IsUnicodeSpace(c) <==> 9 <= n <= 13 || n == 32 || n == 0x85 || n == 0xA0 || n == 0x1680
                                  || 0x2000 <= n <= 0x200A || n == 0x2028 || n == 0x2029 || n == 0x202F
                                  || n == 0x205F || n == 0x3000;
  }

  lemma {:induction false} TrimLeftOf(left: string, t: string)
    requires Blank(left) && (t != "" ==> t[0] !in WHITE_SPACE)
    ensures TrimLeft(left + t) == t
  {
    hide WHITE_SPACE, IsUnicodeSpace;
    if left == "" {
      assert left + t == t;
      if t != "" {
        SpaceIsWhiteSpace(t[0]);
      }
    } else {
      SpaceIsWhiteSpace(left[0]);
      assert (left + t)[1..] == left[1..] + t;
      TrimLeftOf(left[1..], t);
    }
  }

  lemma {:induction false} TrimRightOf(t: string, right: string)
    requires Blank(right) && (t != "" ==> t[|t| - 1] !in WHITE_SPACE)
    ensures TrimRight(t + right) == t
  {
    hide WHITE_SPACE, IsUnicodeSpace;
    if right == "" {
      assert t + right == t;
      if t != "" {
        SpaceIsWhiteSpace(t[|t| - 1]);
      }
    } else {
      var n := |right| - 1;
      SpaceIsWhiteSpace(right[n]);
      assert (t + right)[..|t| + n] == t + right[..n];
      TrimRightOf(t, right[..n]);
    }
  }

  lemma {:induction false} TrimLeftTrims(s: string) returns (left: string)
    ensures s == left + TrimLeft(s) && Blank(left) && (TrimLeft(s) != "" ==> TrimLeft(s)[0] !in WHITE_SPACE)
  {
    hide WHITE_SPACE, IsUnicodeSpace;
    left := "";
    if s != "" {
      SpaceIsWhiteSpace(s[0]);
      if IsUnicodeSpace(s[0]) {
        var more := TrimLeftTrims(s[1..]);
        left := [s[0]] + more;
      }
    }
  }

  lemma {:induction false} TrimRightTrims(s: string) returns (right: string)
    ensures s == TrimRight(s) + right && Blank(right)
    ensures TrimRight(s) != "" ==> TrimRight(s)[|TrimRight(s)| - 1] !in WHITE_SPACE && TrimRight(s)[0] == s[0]
  {
    hide WHITE_SPACE, IsUnicodeSpace;
    right := "";
    if s != "" {
      var n := |s| - 1;
      SpaceIsWhiteSpace(s[n]);
      if IsUnicodeSpace(s[n]) {
        var more := TrimRightTrims(s[..n]);
        right := more + [s[n]];
      }
    }
  }

  /** Trimming removes the white space at both ends and nothing else. */
  lemma TrimSpaceExact(s: string, t: string)
    ensures TrimSpace(s) == t <==> exists left, right :: Trims(s, t, left, right)
  {
    hide WHITE_SPACE, IsUnicodeSpace, TrimLeft, TrimRight;
    if left, right :| Trims(s, t, left, right) {
      if t == "" {
        assert s == (left + right) + "";
        TrimLeftOf(left + right, "");
        TrimRightOf("", "");
        assert "" + "" == "";
      } else {
        assert s == left + (t + right);
        TrimLeftOf(left, t + right);
        TrimRightOf(t, right);
      }
    }
    var left := TrimLeftTrims(s);
    var right := TrimRightTrims(TrimLeft(s));
    assert Trims(s, TrimSpace(s), left, right);
  }

  function ParseText(s: string): Result<Value, JsonError> {
    if s == "" then Err(InvalidJSON)
    else if Utf8.Size(s) > MAX_ARGUMENTS_BYTES then Err(ArgumentsTooLarge)
    else if !Strings.ScanOutside(s) then Err(InvalidJSON)
    else match ReadValue(s, MAX_JSON_DEPTH)
      case Failed(error) => Err(error)
      case Parsed(v, _, rest) => if SkipSpace(rest) == "" then Ok(v) else Err(InvalidJSON)
  }

  ghost function CanonicalizeText(s: string): Result<string, JsonError> {
    match ParseText(TrimSpace(s))
    case Err(error) => Err(error)
    case Ok(v) => Ok(Print(v))
  }

  lemma ParsedWellFormed(s: string)
    requires ParseText(s).Ok?
    ensures WellFormed(ParseText(s).value, MAX_JSON_DEPTH)
    ensures !ReadValue(s, MAX_JSON_DEPTH).lossy
  {
    ReadWellFormed(s, MAX_JSON_DEPTH);
    Syntax.ScanAgrees(s, MAX_JSON_DEPTH);
  }

  /** A text of at most 1 MiB that is syntactically valid in any spelling, with no unpaired surrogate, at most 64
      containers around any value, acceptable numbers and distinct names in each object. */
  ghost predicate AcceptableText(s: string) {
    && Utf8.Size(s) <= 1_048_576 && Syntax.ValidText(s) && !Syntax.ValueTree(s, 0).value.lossy
    && var t := Syntax.ValueTree(s, 0).value.tree;
       Syntax.Depth(t) <= 64 && Syntax.NumbersAcceptable(t) && Syntax.NamesDistinct(t)
  }

  /** What parsing accepts, and what it returns: exactly the acceptable texts, and a value that denotes what the
      text does. */
  lemma ParseIsExact(s: string)
    ensures ParseText(s).Ok? <==> AcceptableText(s)
    ensures ParseText(s).Ok? ==>
              var t := Syntax.ValueTree(s, 0).value.tree;
              && ValidTree(t, MAX_JSON_DEPTH) && ParseText(s).value == Denote(t, MAX_JSON_DEPTH)
              && WellFormed(ParseText(s).value, MAX_JSON_DEPTH)
              && MeaningOf(ParseText(s).value, MAX_JSON_DEPTH) == TreeMeaning(t)
  {
    hide Utf8.Encode, ReadValue, Syntax.ValueTree, Strings.ScanOutside, ValidTree, Denote, Syntax.Depth,
      Syntax.NumbersAcceptable, Syntax.NamesDistinct, MeaningOf, TreeMeaning, WellFormed;
    EmptyHasNoTree();
    Syntax.ReaderIsExact(s, 0, MAX_JSON_DEPTH);
    if Syntax.ValidText(s) {
      Syntax.ScanIsExact(s);
      if AcceptableText(s) {
        DenoteKeepsMeaning(Syntax.ValueTree(s, 0).value.tree, MAX_JSON_DEPTH);
      }
    }
  }

  /** What a spelling denotes, read off the tree itself: numbers are the rationals their literals denote. */
  ghost function TreeMeaning(t: Tree): Meaning
    requires Syntax.NumbersAcceptable(t)
    decreases t, 0
  {
    match t
    case TNull => MNull
    case TBool(b) => MBool(b)
    case TNum(text) =>
      Numbers.NormalizeAccepts(text);
      MNum(Numbers.NumberValue(text))
    case TStr(s) => MStr(s)
    case TArr(trees) => MArr(seq(|trees|, i requires 0 <= i < |trees| => TreeMeaning(trees[i])))
    case TObj(fields) => MObj(FieldMeanings(fields))
  }

  ghost function FieldMeanings(fields: seq<Field>): map<string, Meaning>
    requires forall i | 0 <= i < |fields| :: Syntax.NumbersAcceptable(fields[i].tree)
    decreases fields, 1
  {
    if fields == [] then map[] else FieldMeanings(fields[1..])[fields[0].key := TreeMeaning(fields[0].tree)]
  }

  /** The value that reading a tree gives denotes what the tree denotes. */
  lemma {:induction false} DenoteKeepsMeaning(t: Tree, budget: int)
    requires ValidTree(t, budget)
    ensures Syntax.NumbersAcceptable(t) && Syntax.NamesDistinct(t) && WellFormed(Denote(t, budget), budget)
    ensures MeaningOf(Denote(t, budget), budget) == TreeMeaning(t)
    decreases t
  {
    hide Numbers.Normalize, Numbers.NumberValue, Numbers.AcceptableNumber, DenoteFields, DenoteItems;
    Syntax.ValidIsAcceptable(t, budget);
    match t
    case TNum(text) =>
      Numbers.NormalizeExact(text);
      Numbers.NormalizeFixedPoint(text);
    case TArr(trees) =>
      var items := Denote(t, budget).items;
      DenoteItemsSize(trees, budget - 1);
      forall i | 0 <= i < |trees|
        ensures WellFormed(items[i], budget - 1)
        ensures MeaningOf(items[i], budget - 1) == TreeMeaning(trees[i])
      {
        DenoteItemsAt(trees, budget - 1, i);
        DenoteKeepsMeaning(trees[i], budget - 1);
      }
    case TObj(fields) =>
      DenoteObjectKeepsMeaning(fields, budget);
    case _ =>
  }

  lemma DenoteItemsSize(trees: seq<Tree>, budget: int)
    requires forall i | 0 <= i < |trees| :: ValidTree(trees[i], budget)
    ensures |DenoteItems(trees, budget)| == |trees|
  {
    if trees != [] {
      DenoteItemsAt(trees, budget, 0);
    }
  }

  predicate HasKey(fields: seq<Field>, k: string) { exists i | 0 <= i < |fields| :: fields[i].key == k }

  lemma {:induction false} SpelledMembers(fields: seq<Field>)
    requires forall i | 0 <= i < |fields| :: Syntax.NumbersAcceptable(fields[i].tree)
    requires DistinctKeys(fields)
    ensures var m := FieldMeanings(fields);
            && (forall k | k in m :: HasKey(fields, k))
            && forall i | 0 <= i < |fields| :: fields[i].key in m && m[fields[i].key] == TreeMeaning(fields[i].tree)
  {
    hide TreeMeaning;
    if fields != [] {
      var rest := fields[1..];
      SpelledMembers(rest);
      var m := FieldMeanings(fields);
      forall k | k in m ensures HasKey(fields, k) {
        if HasKey(rest, k) {
          var i :| 0 <= i < |rest| && rest[i].key == k;
          assert fields[i + 1].key == k;
        } else {
          assert fields[0].key == k;
        }
      }
      forall i | 0 <= i < |fields| ensures fields[i].key in m && m[fields[i].key] == TreeMeaning(fields[i].tree) {
        assert i > 0 ==> fields[i] == rest[i - 1];
      }
    }
  }

  lemma MeantMembers(members: map<string, Value>, budget: int)
    requires WellFormed(Obj(members), budget)
    ensures var m := MeaningOf(Obj(members), budget);
            && m.MObj? && m.members.Keys == members.Keys
            && forall k | k in members :: m.members[k] == MeaningOf(members[k], budget - 1)
  {
    hide Numbers.NumberValue, Numbers.Normalize;
  }

  /** The members of an object mean what the fields they came from mean. */
  lemma MembersMean(fields: seq<Field>, members: map<string, Value>, budget: int)
    requires budget >= 0 && Syntax.NumbersAcceptable(TObj(fields)) && Syntax.NamesDistinct(TObj(fields))
    requires forall k | k in members :: HasKey(fields, k) && WellFormed(members[k], budget - 1)
    requires forall i | 0 <= i < |fields| ::
      && fields[i].key in members && WellFormed(members[fields[i].key], budget - 1)
      && MeaningOf(members[fields[i].key], budget - 1) == TreeMeaning(fields[i].tree)
    ensures WellFormed(Obj(members), budget) && MeaningOf(Obj(members), budget) == TreeMeaning(TObj(fields))
  {
    ObjectIsWellFormed(members, budget);
    SpelledMembers(fields);
    MeantMembers(members, budget);
    assert TreeMeaning(TObj(fields)) == MObj(FieldMeanings(fields));
    hide MeaningOf, TreeMeaning, WellFormed, Syntax.NumbersAcceptable, Syntax.NamesDistinct;
    var meant, spelled := MeaningOf(Obj(members), budget).members, TreeMeaning(TObj(fields)).members;
    forall k ensures k in meant <==> k in spelled {
      if k in meant {
        var i :| 0 <= i < |fields| && fields[i].key == k;
      }
      if k in spelled {
        var i :| 0 <= i < |fields| && fields[i].key == k;
      }
    }
    forall k | k in meant ensures meant[k] == spelled[k] {
      var i :| 0 <= i < |fields| && fields[i].key == k;
    }
    assert meant == spelled;
  }

  lemma ObjectIsWellFormed(members: map<string, Value>, budget: int)
    requires budget >= 0 && forall k | k in members :: WellFormed(members[k], budget - 1)
    ensures WellFormed(Obj(members), budget)
  {
  }

  lemma {:induction false} DenoteObjectKeepsMeaning(fields: seq<Field>, budget: int)
    requires ValidTree(TObj(fields), budget)
    ensures var t := TObj(fields);
            && Syntax.NumbersAcceptable(t) && Syntax.NamesDistinct(t) && WellFormed(Denote(t, budget), budget)
            && MeaningOf(Denote(t, budget), budget) == TreeMeaning(t)
    decreases fields
  {
    hide Numbers.Normalize, DenoteFields, MeaningOf, TreeMeaning, WellFormed, Syntax.NumbersAcceptable,
      Syntax.NamesDistinct, Syntax.Depth;
    Syntax.ValidIsAcceptable(TObj(fields), budget);
    var members := Denote(TObj(fields), budget).members;
    DenoteFieldsKeys(fields, budget - 1, map[]);
    DenoteFieldsAt(fields, budget - 1, map[]);
    forall i | 0 <= i < |fields|
      ensures Syntax.NumbersAcceptable(fields[i].tree) && Syntax.NamesDistinct(fields[i].tree)
      ensures fields[i].key in members && WellFormed(members[fields[i].key], budget - 1)
      ensures MeaningOf(members[fields[i].key], budget - 1) == TreeMeaning(fields[i].tree)
    {
      DenoteKeepsMeaning(fields[i].tree, budget - 1);
    }
    forall k | k in members ensures HasKey(fields, k) && WellFormed(members[k], budget - 1) {
      var i :| 0 <= i < |fields| && fields[i].key == k;
    }
    MembersMean(fields, members, budget);
  }

  lemma EmptyHasNoTree()
    ensures Syntax.ValueTree("", 0).None?
  {
  }

  /** A compact spelling within the size limit is parsed to the value it spells. */
  lemma ParseRendered(t: Tree)
    requires ValidTree(t, MAX_JSON_DEPTH)
    ensures ParseText(Render(t)) ==
            if Utf8.Size(Render(t)) > MAX_ARGUMENTS_BYTES then Err(ArgumentsTooLarge) else Ok(Denote(t, MAX_JSON_DEPTH))
  {
    hide Numbers.Normalize, Utf8.Encode;
    RenderStarts(t, MAX_JSON_DEPTH);
    ReadRendered(t, MAX_JSON_DEPTH, "");
    assert Render(t) + "" == Render(t);
    Syntax.ScanAgrees(Render(t), MAX_JSON_DEPTH);
  }

  lemma RenderEnds(t: Tree, budget: int)
    requires ValidTree(t, budget)
    ensures var s := Render(t); s != "" && !IsUnicodeSpace(s[0]) && !IsUnicodeSpace(s[|s| - 1])
  {
    hide Numbers.ScanNumber;
    if t.TNum? {
      NumberEnds(t.text);
    }
  }

  lemma NumberEnds(text: string)
    requires Numbers.MatchesPattern(text)
    ensures text != "" && !IsUnicodeSpace(text[0]) && !IsUnicodeSpace(text[|text| - 1])
  {
    var l := Numbers.LiteralOf(text);
    Numbers.SignOf(l);
    var u := Numbers.UnsignedText(l);
    assert u[0] == l.whole[0] && Numbers.IsDigit(u[0]);
    assert Numbers.IsDigit(u[|u| - 1]);
  }

  lemma RenderTrimmed(t: Tree, budget: int)
    requires ValidTree(t, budget)
    ensures TrimSpace(Render(t)) == Render(t)
  {
    RenderEnds(t, budget);
  }

  /** Canonicalization depends on nothing but the value a text denotes: white space, escapes, member order and number
      notation are forgotten.  It succeeds exactly on the texts that parsing accepts. */
  lemma CanonicalizeSpelled(s: string)
    ensures CanonicalizeText(s).Ok? <==> AcceptableText(TrimSpace(s))
    ensures CanonicalizeText(s).Ok? ==>
              var t := Syntax.ValueTree(TrimSpace(s), 0).value.tree;
              && ValidTree(t, MAX_JSON_DEPTH) && CanonicalizeText(s) == Ok(Print(Denote(t, MAX_JSON_DEPTH)))
              && TextMeaning(s) == TreeMeaning(t)
  {
    hide Utf8.Encode, ParseText, Syntax.ValueTree, ValidTree, Denote, TrimSpace, Print, AcceptableText, MeaningOf,
      TreeMeaning;
    ParseIsExact(TrimSpace(s));
  }

  /** Compact spellings of one value have one canonical text. */
  lemma CanonicalizeRendered(t: Tree)
    requires ValidTree(t, MAX_JSON_DEPTH) && Utf8.Size(Render(t)) <= MAX_ARGUMENTS_BYTES
    ensures CanonicalizeText(Render(t)) == Ok(Print(Denote(t, MAX_JSON_DEPTH)))
  {
    RenderTrimmed(t, MAX_JSON_DEPTH);
    ParseRendered(t);
  }

  /** Canonicalization is idempotent exactly when its output still fits the size limit. */
  lemma CanonicalizeIdempotent(s: string)
    requires CanonicalizeText(s).Ok?
    ensures var c := CanonicalizeText(s).value;
            CanonicalizeText(c) == if Utf8.Size(c) > MAX_ARGUMENTS_BYTES then Err(ArgumentsTooLarge) else Ok(c)
  {
    var v := ParseText(TrimSpace(s)).value;
    ParsedWellFormed(TrimSpace(s));
    CanonDenotes(v, MAX_JSON_DEPTH);
    RenderTrimmed(CanonTree(v), MAX_JSON_DEPTH);
    ParseRendered(CanonTree(v));
  }

  function Repeated(c: char, n: nat): string { if n == 0 then "" else [c] + Repeated(c, n - 1) }

  /** A quoted run of '<' characters, raw and escaped. */
  lemma {:induction false} AngleSizes(n: nat)
    ensures Utf8.Size(Strings.Escape(Repeated('<', n))) == 6 * n
    ensures |Repeated('<', n)| == n && forall i | 0 <= i < n :: Repeated('<', n)[i] == '<'
  {
    if n > 0 {
      AngleSizes(n - 1);
      var run := Repeated('<', n);
      assert run[1..] == Repeated('<', n - 1);
      var escape := Strings.EscapeChar('<');
      assert escape == ['\\', 'u', '0', '0', '3', 'c'];
      Utf8.AsciiSize(escape);
      Utf8.SizeConcat(escape, Strings.Escape(Repeated('<', n - 1)));
    }
  }

  /** Raw '<' characters decode to themselves. */
  lemma {:induction false} AnglesDecode(n: nat, rest: string)
    ensures Strings.ReadBody(Repeated('<', n) + "\"" + rest) == Some(Strings.Body(Repeated('<', n), false, rest))
  {
    var s := Repeated('<', n) + "\"" + rest;
    if n == 0 {
      assert s == "\"" + rest;
    } else {
      assert s[1..] == Repeated('<', n - 1) + "\"" + rest;
      AnglesDecode(n - 1, rest);
      assert Strings.ReadUnit(s) == Some(Strings.Unit('<', false, 1));
    }
  }

  /** A quoted run of n raw '<' characters is a syntactically valid text that denotes the run. */
  lemma QuotedAngles(n: nat)
    ensures var s := "\"" + Repeated('<', n) + "\"";
            && Syntax.ValidText(s) && !Syntax.ValueTree(s, 0).value.lossy
            && Syntax.ValueTree(s, 0).value.tree == TStr(Repeated('<', n))
            && TrimSpace(s) == s && Utf8.Size(s) == n + 2
  {
    var run := Repeated('<', n);
    var s := "\"" + run + "\"";
    AnglesDecode(n, "");
    assert s[1..] == run + "\"" + "";
    hide Strings.ReadBody;
    assert s[0] == '"' && s[|s| - 1] == '"';
    AngleSizes(n);
    Utf8.AsciiSize(s);
  }

  /** The size limit is reached: an accepted text whose canonical text is refused. */
  lemma CanonicalTextCanOutgrowLimit()
    ensures exists s: string ::
      CanonicalizeText(s).Ok? && CanonicalizeText(CanonicalizeText(s).value) == Err(ArgumentsTooLarge)
  {
    hide Utf8.Encode, Syntax.ValueTree, Syntax.ValidText, TrimSpace, CanonicalizeText, Strings.Escape;
    var n := 200_000;
    var s := "\"" + Repeated('<', n) + "\"";
    QuotedAngles(n);
    AngleSizes(n);
    CanonicalizeSpelled(s);
    assert CanonicalizeText(s).Ok?;
    PrintedString(Repeated('<', n));
    CanonicalizeIdempotent(s);
  }

  lemma PrintedString(s: string)
    ensures ValidTree(TStr(s), MAX_JSON_DEPTH) && Denote(TStr(s), MAX_JSON_DEPTH) == Str(s)
    ensures Utf8.Size(Print(Str(s))) == Utf8.Size(Strings.Escape(s)) + 2
  {
    hide Strings.Escape, Utf8.EncodeChar;
    Utf8.AsciiSize("\"");
    Utf8.SizeConcat("\"", Strings.Escape(s));
    Utf8.SizeConcat("\"" + Strings.Escape(s), "\"");
  }

  /** The value an accepted text denotes. */
  ghost function TextMeaning(s: string): Meaning
    requires CanonicalizeText(s).Ok?
  {
    ParsedWellFormed(TrimSpace(s));
    MeaningOf(ParseText(TrimSpace(s)).value, MAX_JSON_DEPTH)
  }

  /** Two accepted texts have the same canonical text exactly when they denote the same value. */
  lemma CanonicalizeInjective(a: string, b: string)
    requires CanonicalizeText(a).Ok? && CanonicalizeText(b).Ok?
    ensures CanonicalizeText(a) == CanonicalizeText(b) <==> TextMeaning(a) == TextMeaning(b)
  {
    hide CanonTree, MeaningOf;
    var v, w := ParseText(TrimSpace(a)).value, ParseText(TrimSpace(b)).value;
    ParsedWellFormed(TrimSpace(a));
    ParsedWellFormed(TrimSpace(b));
    MeaningInjective(v, w, MAX_JSON_DEPTH);
    if Print(v) == Print(w) {
      PrintInjective(v, w, MAX_JSON_DEPTH);
    }
  }

  // ---------------------------------------------------------------- CanonicalizeJSON on bytes

  ghost function CanonicalizeJSON(input: seq<Utf8.Byte>): Result<seq<Utf8.Byte>, JsonError> {
    match Utf8.Decode(input)
    case None => Err(InvalidJSON)
    case Some(s) =>
      match CanonicalizeText(s)
      case Err(error) => Err(error)
      case Ok(c) => Ok(Utf8.Encode(c))
  }

  /** Bytes are canonicalized exactly when they are UTF-8 and, without the white space around them, an acceptable text;
      the canonical bytes are those of the value that text denotes. */
  lemma CanonicalBytesExact(input: seq<Utf8.Byte>)
    ensures CanonicalizeJSON(input).Ok? <==>
            Utf8.Decode(input).Some? && AcceptableText(TrimSpace(Utf8.Decode(input).value))
    ensures CanonicalizeJSON(input).Ok? ==>
              var t := Syntax.ValueTree(TrimSpace(Utf8.Decode(input).value), 0).value.tree;
              ValidTree(t, MAX_JSON_DEPTH)
              && CanonicalizeJSON(input) == Ok(Utf8.Encode(Print(Denote(t, MAX_JSON_DEPTH))))
  {
    hide CanonicalizeText, AcceptableText, TrimSpace, Utf8.Decode, Utf8.Encode, Print, Denote, ValidTree,
      Syntax.ValueTree;
    if Utf8.Decode(input).Some? {
      CanonicalizeSpelled(Utf8.Decode(input).value);
    }
  }

  /** The canonical bytes are a fixed point as long as they fit the size limit. */
  lemma CanonicalBytesIdempotent(input: seq<Utf8.Byte>)
    requires CanonicalizeJSON(input).Ok?
    ensures var c := CanonicalizeJSON(input).value;
            CanonicalizeJSON(c) == if |c| > MAX_ARGUMENTS_BYTES then Err(ArgumentsTooLarge) else Ok(c)
  {
    hide CanonicalizeText;
    var s := Utf8.Decode(input).value;
    CanonicalizeIdempotent(s);
    Utf8.DecodeEncode(CanonicalizeText(s).value);
  }

  /** Two inputs have the same canonical bytes exactly when they denote the same value. */
  lemma CanonicalBytesInjective(a: seq<Utf8.Byte>, b: seq<Utf8.Byte>)
    requires CanonicalizeJSON(a).Ok? && CanonicalizeJSON(b).Ok?
    ensures Utf8.Decode(a).Some? && Utf8.Decode(b).Some?
    ensures CanonicalizeJSON(a) == CanonicalizeJSON(b) <==>
            TextMeaning(Utf8.Decode(a).value) == TextMeaning(Utf8.Decode(b).value)
  {
    hide CanonicalizeText, TextMeaning;
    var s, t := Utf8.Decode(a).value, Utf8.Decode(b).value;
    CanonicalizeInjective(s, t);
    if CanonicalizeJSON(a) == CanonicalizeJSON(b) {
      Utf8.EncodeInjective(CanonicalizeText(s).value, CanonicalizeText(t).value);
    }
  }
}
