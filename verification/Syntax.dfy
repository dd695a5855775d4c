/**
  The grammar of JSON text alone (RFC 8259), with nothing about repeated names, number range or nesting:
  which tree a text spells, where its string literals stand, and whether decoding one of them would
  replace a surrogate.  The reader of module Json and the encoding scan are both measured against it.
 */
module Syntax {
  import opened Wrappers
  import opened Json
  import Numbers
  import Strings

  /** A string literal, from its opening quote up to just after its closing quote. */
  datatype Span = Span(start: int, end: int)

  /** What the front of a text spells: a tree, the literals in it, and the text after it. */
  datatype Spelled = Spelled(tree: Tree, lossy: bool, spans: seq<Span>, rest: string)

  datatype SpelledItems = SpelledItems(trees: seq<Tree>, lossy: bool, spans: seq<Span>, rest: string)

  datatype SpelledFields = SpelledFields(fields: seq<Field>, lossy: bool, spans: seq<Span>, rest: string)

  datatype SpelledKey = SpelledKey(key: string, lossy: bool, span: Span, rest: string)

  // ---------------------------------------------------------------- grammar

  function WordTree(s: string, word: string, tree: Tree): Option<Spelled> {
    if |word| <= |s| && s[..|word|] == word then Some(Spelled(tree, false, [], s[|word|..])) else None
  }

  /** A scalar at the front of s, which stands at position |at| of the text. */
  function ScalarTree(s: string, at: int): (p: Option<Spelled>)
    requires s != ""
    ensures p.Some? ==> |p.value.rest| < |s|
  {
    match s[0]
    case '"' => (match Strings.ReadBody(s[1..])
                 case None => None
                 case Some(body) =>
                   Some(Spelled(TStr(body.content), body.lossy, [Span(at, at + |s| - |body.rest|)], body.rest)))
    case 'n' => WordTree(s, "null", TNull)
    case 't' => WordTree(s, "true", TBool(true))
    case 'f' => WordTree(s, "false", TBool(false))
    case _ => (match Numbers.ScanNumber(s)
               case None => None
               case Some((_, rest)) =>
                 Numbers.ScanSplits(s);
                 Some(Spelled(TNum(s[..|s| - |rest|]), false, [], rest)))
  }

  /** A member name and its colon. */
  function KeyTree(s: string, at: int): (k: Option<SpelledKey>)
    ensures k.Some? ==> |k.value.rest| < |s|
  {
    if s == "" || s[0] != '"' then None
    else match Strings.ReadBody(s[1..])
      case None => None
      case Some(body) =>
        var colon := SkipSpace(body.rest);
        if colon == "" || colon[0] != ':' then None
        else Some(SpelledKey(body.content, body.lossy, Span(at, at + |s| - |body.rest|), colon[1..]))
  }

  function ValueTree(s: string, at: int): (p: Option<Spelled>)
    ensures p.Some? ==> |p.value.rest| < |s|
    decreases |s|, 1
  {
    var t := SkipSpace(s);
    var here := at + |s| - |t|;
    if t == "" then None
    else if t[0] == '{' then
      (match FieldTrees(t[1..], here + 1, true)
       case None => None
       case Some(l) => Some(Spelled(TObj(l.fields), l.lossy, l.spans, l.rest)))
    else if t[0] == '[' then
      (match ItemTrees(t[1..], here + 1, true)
       case None => None
       case Some(l) => Some(Spelled(TArr(l.trees), l.lossy, l.spans, l.rest)))
    else ScalarTree(t, here)
  }

  function ItemTrees(s: string, at: int, first: bool): (l: Option<SpelledItems>)
    ensures l.Some? ==> |l.value.rest| < |s|
    decreases |s|, 2
  {
    var t := SkipSpace(s);
    if t == "" then None
    else if t[0] == ']' then Some(SpelledItems([], false, [], t[1..]))
    else if !first && t[0] != ',' then None
    else
      var u := if first then t else t[1..];
      match ValueTree(u, at + |s| - |u|)
      case None => None
      case Some(p) =>
        match ItemTrees(p.rest, at + |s| - |p.rest|, false)
        case None => None
        case Some(l) => Some(SpelledItems([p.tree] + l.trees, p.lossy || l.lossy, p.spans + l.spans, l.rest))
  }

  function FieldTrees(s: string, at: int, first: bool): (l: Option<SpelledFields>)
    ensures l.Some? ==> |l.value.rest| < |s|
    decreases |s|, 2
  {
    var t := SkipSpace(s);
    if t == "" then None
    else if t[0] == '}' then Some(SpelledFields([], false, [], t[1..]))
    else if !first && t[0] != ',' then None
    else
      var u := if first then t else SkipSpace(t[1..]);
      match KeyTree(u, at + |s| - |u|)
      case None => None
      case Some(k) =>
        match ValueTree(k.rest, at + |s| - |k.rest|)
        case None => None
        case Some(p) =>
          match FieldTrees(p.rest, at + |s| - |p.rest|, false)
          case None => None
          case Some(l) =>
            Some(SpelledFields([Field(k.key, p.tree)] + l.fields, k.lossy || p.lossy || l.lossy,
                               [k.span] + p.spans + l.spans, l.rest))
  }

  /** A syntactically valid text: one value between white space. */
  predicate ValidText(s: string) {
    ValueTree(s, 0).Some? && SkipSpace(ValueTree(s, 0).value.rest) == ""
  }

  // ---------------------------------------------------------------- what a tree must satisfy

  /** How many arrays and objects stand around the innermost value. */
  function Depth(t: Tree): nat
    decreases t, 0
  {
    match t
    case TArr(trees) => ItemsDepth(trees)
    case TObj(fields) => FieldsDepth(fields)
    case _ => 0
  }

  function Deeper(d: nat, e: nat): nat { if d < e then e else d }

  /** One more than the deepest of the items; nothing stands inside an empty array. */
  function ItemsDepth(trees: seq<Tree>): nat
    decreases trees, 1
  {
    if trees == [] then 0 else Deeper(1 + Depth(trees[0]), ItemsDepth(trees[1..]))
  }

  function FieldsDepth(fields: seq<Field>): nat
    decreases fields, 1
  {
    if fields == [] then 0 else Deeper(1 + Depth(fields[0].tree), FieldsDepth(fields[1..]))
  }

  /** Every number in a tree spells an acceptable literal. */
  ghost predicate NumbersAcceptable(t: Tree)
    decreases t
  {
    match t
    case TNum(text) => Numbers.AcceptableNumber(text)
    case TArr(trees) => forall i | 0 <= i < |trees| :: NumbersAcceptable(trees[i])
    case TObj(fields) => forall i | 0 <= i < |fields| :: NumbersAcceptable(fields[i].tree)
    case _ => true
  }

  /** No object in a tree has two members of one name. */
  predicate NamesDistinct(t: Tree)
    decreases t
  {
    match t
    case TArr(trees) => forall i | 0 <= i < |trees| :: NamesDistinct(trees[i])
    case TObj(fields) =>
      && (forall i | 0 <= i < |fields| :: NamesDistinct(fields[i].tree))
      && (forall i, j | 0 <= i < j < |fields| :: fields[i].key != fields[j].key)
    case _ => true
  }

  ghost predicate Acceptable(t: Tree, limit: int) { Depth(t) <= limit && NumbersAcceptable(t) && NamesDistinct(t) }

  lemma {:induction false} ItemsDepthBounds(trees: seq<Tree>, limit: nat)
    ensures ItemsDepth(trees) <= limit <==> forall i | 0 <= i < |trees| :: 1 + Depth(trees[i]) <= limit
  {
    hide Depth;
    if trees != [] {
      ItemsDepthBounds(trees[1..], limit);
      assert forall i | 1 <= i < |trees| :: trees[i] == trees[1..][i - 1];
      assert forall i | 0 <= i < |trees[1..]| :: trees[1..][i] == trees[i + 1];
    }
  }

  lemma {:induction false} FieldsDepthBounds(fields: seq<Field>, limit: nat)
    ensures FieldsDepth(fields) <= limit <==> forall i | 0 <= i < |fields| :: 1 + Depth(fields[i].tree) <= limit
  {
    hide Depth;
    if fields != [] {
      FieldsDepthBounds(fields[1..], limit);
      assert forall i | 1 <= i < |fields| :: fields[i] == fields[1..][i - 1];
      assert forall i | 0 <= i < |fields[1..]| :: fields[1..][i] == fields[i + 1];
    }
  }

  /** The three conditions, each about the whole tree, are what the reader's budget amounts to. */
  lemma {:induction false} ValidIsAcceptable(t: Tree, budget: int)
    ensures ValidTree(t, budget) <==> Acceptable(t, budget)
    decreases t
  {
    hide Numbers.Normalize, Numbers.AcceptableNumber;
    if budget >= 0 {
      match t
      case TNum(text) => Numbers.NormalizeAccepts(text);
      case TArr(trees) =>
        ItemsDepthBounds(trees, budget);
        forall i | 0 <= i < |trees| ensures ValidTree(trees[i], budget - 1) <==> Acceptable(trees[i], budget - 1) {
          ValidIsAcceptable(trees[i], budget - 1);
        }
      case TObj(fields) =>
        FieldsDepthBounds(fields, budget);
        forall i | 0 <= i < |fields|
          ensures ValidTree(fields[i].tree, budget - 1) <==> Acceptable(fields[i].tree, budget - 1) {
          ValidIsAcceptable(fields[i].tree, budget - 1);
        }
      case _ =>
    }
  }

  // ---------------------------------------------------------------- the reader against the grammar

  lemma ScalarIsSpelled(s: string, at: int, budget: nat)
    requires s != "" && s[0] != '{' && s[0] != '['
    ensures match ScalarTree(s, at)
            case None => ReadScalar(s).Failed?
            case Some(p) =>
              !p.tree.TArr? && !p.tree.TObj?
              && if ValidTree(p.tree, budget) then ReadScalar(s) == Parsed(Denote(p.tree, budget), p.lossy, p.rest)
                 else ReadScalar(s).Failed?
  {
    hide Numbers.ScanNumber, Numbers.Normalize, Strings.ReadBody;
  }

  lemma KeyIsSpelled(s: string, at: int, read: map<string, Value>)
    ensures match KeyTree(s, at)
            case None => ReadKey(s, read).NoKey?
            case Some(k) =>
              if k.key in read then ReadKey(s, read).NoKey? else ReadKey(s, read) == Key(k.key, k.lossy, k.rest)
  {
    hide Strings.ReadBody, SkipSpace;
  }

  lemma {:induction false} ReaderReads(s: string, at: int, budget: int)
    ensures match ValueTree(s, at)
            case None => ReadValue(s, budget).Failed?
            case Some(p) =>
              if ValidTree(p.tree, budget) then ReadValue(s, budget) == Parsed(Denote(p.tree, budget), p.lossy, p.rest)
              else ReadValue(s, budget).Failed?
    decreases |s|, 1
  {
    hide ScalarTree, ReadScalar, ReadFields, ReadItems, FieldTrees, ItemTrees, ValidTree, Denote;
    var t := SkipSpace(s);
    var here := at + |s| - |t|;
    if budget < 0 {
      NoBudget(s, at, budget);
    } else if t != "" {
      if t[0] == '{' {
        FieldsReaderIsExact(t[1..], here + 1, budget - 1, map[], false, true);
        var l := FieldTrees(t[1..], here + 1, true);
        if l.Some? {
          ObjectIsAddable(l.value.fields, budget);
        }
      } else if t[0] == '[' {
        ItemsReaderIsExact(t[1..], here + 1, budget - 1, [], false, true);
        var l := ItemTrees(t[1..], here + 1, true);
        if l.Some? {
          ArrayIsItems(l.value.trees, budget);
        }
      } else {
        ScalarIsSpelled(t, here, budget);
      }
    }
  }

  lemma NoBudget(s: string, at: int, budget: int)
    requires budget < 0
    ensures ReadValue(s, budget).Failed? && (ValueTree(s, at).Some? ==> !ValidTree(ValueTree(s, at).value.tree, budget))
  {
  }

  lemma ObjectIsAddable(fields: seq<Field>, budget: nat)
    ensures ValidTree(TObj(fields), budget) <==> Addable(fields, budget - 1, map[])
    ensures Addable(fields, budget - 1, map[]) ==>
              Denote(TObj(fields), budget) == Obj(DenoteFields(fields, budget - 1, map[]))
  {
  }

  lemma ArrayIsItems(trees: seq<Tree>, budget: nat)
    ensures ValidTree(TArr(trees), budget) <==> forall i | 0 <= i < |trees| :: ValidTree(trees[i], budget - 1)
    ensures ValidTree(TArr(trees), budget) ==>
              Denote(TArr(trees), budget) == Arr([] + DenoteItems(trees, budget - 1))
  {
    if ValidTree(TArr(trees), budget) {
      assert [] + DenoteItems(trees, budget - 1) == DenoteItems(trees, budget - 1);
    }
  }

  lemma {:induction false} ItemsReaderIsExact(s: string, at: int, budget: int, read: seq<Value>, lossy: bool,
                                              first: bool)
    ensures match ItemTrees(s, at, first)
            case None => ReadItems(s, budget, read, lossy, first).Failed?
            case Some(l) =>
              if forall i | 0 <= i < |l.trees| :: ValidTree(l.trees[i], budget)
              then ReadItems(s, budget, read, lossy, first) ==
                   Parsed(Arr(read + DenoteItems(l.trees, budget)), lossy || l.lossy, l.rest)
              else ReadItems(s, budget, read, lossy, first).Failed?
    decreases |s|, 2
  {
    hide ReadValue, ValueTree, ValidTree, Denote, DenoteItems;
    var t := SkipSpace(s);
    if t != "" && t[0] == ']' {
      NoItems(budget, read);
    } else if t != "" && (first || t[0] == ',') {
      var u := if first then t else t[1..];
      ReaderReads(u, at + |s| - |u|, budget);
      var p := ValueTree(u, at + |s| - |u|);
      if p.Some? && ValidTree(p.value.tree, budget) {
        var v := Denote(p.value.tree, budget);
        ItemsReaderIsExact(p.value.rest, at + |s| - |p.value.rest|, budget, read + [v], lossy || p.value.lossy, false);
        var l := ItemTrees(p.value.rest, at + |s| - |p.value.rest|, false);
        if l.Some? {
          ConsItems(p.value.tree, l.value.trees, budget, read);
        }
      } else if p.Some? {
        var l := ItemTrees(p.value.rest, at + |s| - |p.value.rest|, false);
        if l.Some? {
          assert ([p.value.tree] + l.value.trees)[0] == p.value.tree;
        }
      }
    }
  }

  lemma NoItems(budget: int, read: seq<Value>)
    ensures read + DenoteItems([], budget) == read
  {
  }

  lemma ConsItems(tree: Tree, trees: seq<Tree>, budget: int, read: seq<Value>)
    requires ValidTree(tree, budget)
    ensures (forall i | 0 <= i < |[tree] + trees| :: ValidTree(([tree] + trees)[i], budget)) <==>
            (forall i | 0 <= i < |trees| :: ValidTree(trees[i], budget))
    ensures (forall i | 0 <= i < |trees| :: ValidTree(trees[i], budget)) ==>
              read + DenoteItems([tree] + trees, budget) == read + [Denote(tree, budget)] + DenoteItems(trees, budget)
  {
    hide ValidTree, Denote;
    var all := [tree] + trees;
    assert all[1..] == trees;
    if forall i | 0 <= i < |all| :: ValidTree(all[i], budget) {
      forall i | 0 <= i < |trees| ensures ValidTree(trees[i], budget) {
        assert all[i + 1] == trees[i];
      }
    }
    if forall i | 0 <= i < |trees| :: ValidTree(trees[i], budget) {
      assert DenoteItems(all, budget) == [Denote(tree, budget)] + DenoteItems(trees, budget);
    }
  }

  /** The members of an object can be added to those already read. */
  predicate Addable(fields: seq<Field>, budget: int, read: map<string, Value>) {
    && (forall i | 0 <= i < |fields| :: ValidTree(fields[i].tree, budget))
    && DistinctKeys(fields)
    && (forall i | 0 <= i < |fields| :: fields[i].key !in read)
  }

  /** What the reader makes of the members that the grammar finds. */
  ghost predicate FieldsAgree(spelled: Option<SpelledFields>, parsed: Parsed, budget: int, read: map<string, Value>,
                              lossy: bool) {
    match spelled
    case None => parsed.Failed?
    case Some(l) =>
      if Addable(l.fields, budget, read) then
        parsed == Parsed(Obj(DenoteFields(l.fields, budget, read)), lossy || l.lossy, l.rest)
      else parsed.Failed?
  }

  function ConsSpelled(k: SpelledKey, p: Spelled, more: Option<SpelledFields>): Option<SpelledFields> {
    match more
    case None => None
    case Some(l) =>
      Some(SpelledFields([Field(k.key, p.tree)] + l.fields, k.lossy || p.lossy || l.lossy,
                         [k.span] + p.spans + l.spans, l.rest))
  }

  /** Where the next member starts, if there is one. */
  function MemberStart(s: string, first: bool): Option<string> {
    var t := SkipSpace(s);
    if t == "" || t[0] == '}' || (!first && t[0] != ',') then None else Some(if first then t else SkipSpace(t[1..]))
  }

  lemma NextSpelled(s: string, at: int, first: bool, u: string)
    requires MemberStart(s, first) == Some(u)
    ensures FieldTrees(s, at, first) ==
            match KeyTree(u, at + |s| - |u|)
            case None => None
            case Some(k) =>
              match ValueTree(k.rest, at + |s| - |k.rest|)
              case None => None
              case Some(p) => ConsSpelled(k, p, FieldTrees(p.rest, at + |s| - |p.rest|, false))
  {
    hide KeyTree, ValueTree, SkipSpace;
  }

  lemma NextRead(s: string, budget: int, read: map<string, Value>, lossy: bool, first: bool, u: string)
    requires MemberStart(s, first) == Some(u)
    ensures ReadFields(s, budget, read, lossy, first) ==
            match ReadKey(u, read)
            case NoKey(error) => Failed(error)
            case Key(key, keyLossy, rest) =>
              match ReadValue(rest, budget)
              case Failed(error) => Failed(error)
              case Parsed(v, l, after) => ReadFields(after, budget, read[key := v], lossy || keyLossy || l, false)
  {
    hide ReadKey, ReadValue, SkipSpace;
  }

  lemma {:induction false} FieldsReaderIsExact(s: string, at: int, budget: int, read: map<string, Value>, lossy: bool,
                                               first: bool)
    ensures FieldsAgree(FieldTrees(s, at, first), ReadFields(s, budget, read, lossy, first), budget, read, lossy)
    decreases |s|, 2
  {
    hide ReadValue, ValueTree, ValidTree, Denote, DenoteFields, ReadKey, KeyTree, Addable, FieldsAgree, SkipSpace;
    var t := SkipSpace(s);
    NothingSpelled(budget, read, lossy);
    if t != "" && t[0] == '}' {
      NothingToAdd(t[1..], budget, read, lossy);
    } else if MemberStart(s, first).Some? {
      MemberReaderIsExact(s, at, budget, read, lossy, first, MemberStart(s, first).value);
    }
  }

  lemma {:induction false} MemberReaderIsExact(s: string, at: int, budget: int, read: map<string, Value>, lossy: bool,
                                               first: bool, u: string)
    requires MemberStart(s, first) == Some(u) && |u| <= |s|
    ensures FieldsAgree(FieldTrees(s, at, first), ReadFields(s, budget, read, lossy, first), budget, read, lossy)
    decreases |s|, 1
  {
    hide ReadValue, ValueTree, ValidTree, Denote, ReadFields, FieldTrees, ReadKey, KeyTree, FieldsAgree, MemberStart,
      ConsSpelled;
    NextSpelled(s, at, first, u);
    NextRead(s, budget, read, lossy, first, u);
    NothingSpelled(budget, read, lossy);
    KeyIsSpelled(u, at + |s| - |u|, read);
    var k := KeyTree(u, at + |s| - |u|);
    if k.Some? {
      ReaderReads(k.value.rest, at + |s| - |k.value.rest|, budget);
      var p := ValueTree(k.value.rest, at + |s| - |k.value.rest|);
      if p.Some? {
        var more := FieldTrees(p.value.rest, at + |s| - |p.value.rest|, false);
        if k.value.key !in read && ValidTree(p.value.tree, budget) {
          var next := read[k.value.key := Denote(p.value.tree, budget)];
          var all := lossy || k.value.lossy || p.value.lossy;
          FieldsReaderIsExact(p.value.rest, at + |s| - |p.value.rest|, budget, next, all, false);
          MemberAgrees(k.value, p.value, more, ReadFields(p.value.rest, budget, next, all, false), budget, read, lossy);
        } else {
          MemberRefused(k.value, p.value, more, budget, read, lossy);
        }
      }
    }
  }

  lemma NothingSpelled(budget: int, read: map<string, Value>, lossy: bool)
    ensures forall parsed: Parsed | parsed.Failed? :: FieldsAgree(None, parsed, budget, read, lossy)
  {
  }

  lemma MemberAgrees(k: SpelledKey, p: Spelled, more: Option<SpelledFields>, parsed: Parsed, budget: int,
                     read: map<string, Value>, lossy: bool)
    requires k.key !in read && ValidTree(p.tree, budget)
    requires FieldsAgree(more, parsed, budget, read[k.key := Denote(p.tree, budget)], lossy || k.lossy || p.lossy)
    ensures FieldsAgree(ConsSpelled(k, p, more), parsed, budget, read, lossy)
  {
    hide ValidTree, Denote, DenoteFields, Addable;
    if more.Some? {
      ConsFields(Field(k.key, p.tree), more.value.fields, budget, read);
    }
  }

  lemma MemberRefused(k: SpelledKey, p: Spelled, more: Option<SpelledFields>, budget: int, read: map<string, Value>,
                      lossy: bool)
    requires k.key in read || !ValidTree(p.tree, budget)
    ensures forall parsed: Parsed | parsed.Failed? :: FieldsAgree(ConsSpelled(k, p, more), parsed, budget, read, lossy)
  {
    hide ValidTree, Denote, DenoteFields, Addable;
    if more.Some? {
      ConsFields(Field(k.key, p.tree), more.value.fields, budget, read);
    }
  }

  lemma NothingToAdd(rest: string, budget: int, read: map<string, Value>, lossy: bool)
    ensures FieldsAgree(Some(SpelledFields([], false, [], rest)), Parsed(Obj(read), lossy, rest), budget, read, lossy)
  {
  }

  lemma ConsFields(field: Field, fields: seq<Field>, budget: int, read: map<string, Value>)
    ensures Addable([field] + fields, budget, read) <==>
            && ValidTree(field.tree, budget) && field.key !in read
            && Addable(fields, budget, read[field.key := Denote(field.tree, budget)])
    ensures Addable([field] + fields, budget, read) ==>
              DenoteFields([field] + fields, budget, read) ==
              DenoteFields(fields, budget, read[field.key := Denote(field.tree, budget)])
  {
    hide ValidTree, Denote;
    var all := [field] + fields;
    assert all[0] == field && all[1..] == fields;
    if Addable(all, budget, read) {
      forall i | 0 <= i < |fields|
        ensures ValidTree(fields[i].tree, budget) && fields[i].key !in read && fields[i].key != field.key {
        assert all[i + 1] == fields[i];
      }
      forall i, j | 0 <= i < j < |fields| ensures fields[i].key != fields[j].key {
        assert all[i + 1] == fields[i] && all[j + 1] == fields[j];
      }
    }
    if ValidTree(field.tree, budget) && field.key !in read {
      var next := read[field.key := Denote(field.tree, budget)];
      if Addable(fields, budget, next) {
        forall i | 0 <= i < |all| ensures ValidTree(all[i].tree, budget) && all[i].key !in read {
          assert i > 0 ==> all[i] == fields[i - 1];
        }
        forall i, j | 0 <= i < j < |all| ensures all[i].key != all[j].key {
          assert all[j] == fields[j - 1] && (i > 0 ==> all[i] == fields[i - 1]);
        }
      }
    }
  }

  /** Whatever text the reader is given, it accepts exactly when the grammar does, every number in the tree spells an
      acceptable literal, the names of each object are distinct and nesting fits the budget; and then it returns
      what the text denotes. */
  lemma ReaderIsExact(s: string, at: int, budget: int)
    ensures match ValueTree(s, at)
            case None => ReadValue(s, budget).Failed?
            case Some(p) =>
              if Depth(p.tree) <= budget && NumbersAcceptable(p.tree) && NamesDistinct(p.tree)
              then ValidTree(p.tree, budget) && ReadValue(s, budget) == Parsed(Denote(p.tree, budget), p.lossy, p.rest)
              else ReadValue(s, budget).Failed?
  {
    hide ReadValue, ValueTree, ValidTree, Denote, Depth, NumbersAcceptable, NamesDistinct;
    ReaderReads(s, at, budget);
    if ValueTree(s, at).Some? {
      ValidIsAcceptable(ValueTree(s, at).value.tree, budget);
    }
  }

  // ---------------------------------------------------------------- the literals the encoding scan finds

  function Found(span: Span, more: Option<seq<Span>>): Option<seq<Span>> {
    match more case None => None case Some(spans) => Some([span] + spans)
  }

  /** The literals the scan goes through, in order, or None where it rejects; s stands at position |at|. */
  function ScanLiterals(s: string, at: int): Option<seq<Span>>
    decreases |s|
  {
    if s == "" then Some([])
    else if s[0] == '"' then ScanLiteral(s[1..], at + 1, at)
    else ScanLiterals(s[1..], at + 1)
  }

  /** The same inside a literal that opened at |start|; an unterminated one is left to the parser. */
  function ScanLiteral(s: string, at: int, start: int): Option<seq<Span>>
    decreases |s|
  {
    if s == "" then Some([])
    else if s[0] == '"' then Found(Span(start, at + 1), ScanLiterals(s[1..], at + 1))
    else if s[0] != '\\' then ScanLiteral(s[1..], at + 1, start)
    else if |s| == 1 then None
    else if s[1] != 'u' then ScanLiteral(s[2..], at + 2, start)
    else match Strings.Hex4(s, 2)
      case None => None
      case Some(first) =>
        if Strings.IsHigh(first) then
          if |s| > 8 && s[6] == '\\' && s[7] == 'u' && Strings.Hex4(s, 8).Some?
            && Strings.IsLow(Strings.Hex4(s, 8).value)
          then ScanLiteral(s[12..], at + 12, start) else None
        else if Strings.IsLow(first) then None
        else ScanLiteral(s[6..], at + 6, start)
  }

  /** The scan accepts exactly when it goes through to the end. */
  lemma {:induction false} ScanLiteralsAccepts(s: string, at: int)
    ensures ScanLiterals(s, at).Some? <==> Strings.ScanOutside(s)
    decreases |s|
  {
    if s != "" && s[0] == '"' {
      ScanLiteralAccepts(s[1..], at + 1, at);
    } else if s != "" {
      ScanLiteralsAccepts(s[1..], at + 1);
    }
  }

  lemma {:induction false} ScanLiteralAccepts(s: string, at: int, start: int)
    ensures ScanLiteral(s, at, start).Some? <==> Strings.ScanInside(s)
    decreases |s|
  {
    hide Strings.Hex4;
    if s == "" || (|s| == 1 && s[0] == '\\') {
    } else if s[0] == '"' {
      ScanLiteralsAccepts(s[1..], at + 1);
    } else if s[0] != '\\' {
      ScanLiteralAccepts(s[1..], at + 1, start);
    } else if s[1] != 'u' {
      ScanLiteralAccepts(s[2..], at + 2, start);
    } else {
      if |s| >= 6 {
        ScanLiteralAccepts(s[6..], at + 6, start);
      }
      if |s| >= 12 {
        ScanLiteralAccepts(s[12..], at + 12, start);
      }
    }
  }

  /** What the scan finds when it has gone through the given literals, of which one was lossy or none. */
  function Through(lossy: bool, spans: seq<Span>, more: Option<seq<Span>>): Option<seq<Span>> {
    if lossy then None else match more case None => None case Some(found) => Some(spans + found)
  }

  lemma ThroughTwice(l: bool, a: seq<Span>, m: bool, b: seq<Span>, more: Option<seq<Span>>)
    ensures Through(l, a, Through(m, b, more)) == Through(l || m, a + b, more)
  {
    if !l && !m && more.Some? {
      assert a + (b + more.value) == a + b + more.value;
    }
  }

  lemma ThroughNothing(more: Option<seq<Span>>)
    ensures Through(false, [], more) == more
  {
    if more.Some? {
      assert [] + more.value == more.value;
    }
  }

  /** Inside a literal the decoder accepts, the scan stops at the decoder's closing quote, unless it rejects
      because a surrogate is unpaired. */
  lemma {:induction false} ScanBody(s: string, at: int, start: int)
    requires Strings.ReadBody(s).Some?
    ensures var body := Strings.ReadBody(s).value;
            var end := at + |s| - |body.rest|;
            ScanLiteral(s, at, start) == Through(body.lossy, [Span(start, end)], ScanLiterals(body.rest, end))
    decreases |s|
  {
    hide Strings.ReadUnit, ScanLiteral, ScanLiterals;
    if s[0] == '"' {
      ScanCloses(s, at, start);
    } else {
      var unit := Strings.ReadUnit(s).value;
      ScanBody(s[unit.size..], at + unit.size, start);
      UnitIsScanned(s, unit, at, start);
    }
  }

  lemma ScanCloses(s: string, at: int, start: int)
    requires s != "" && s[0] == '"'
    ensures ScanLiteral(s, at, start) == Through(false, [Span(start, at + 1)], ScanLiterals(s[1..], at + 1))
  {
    hide Strings.Hex4;
  }

  /** One decoded character is one move of the scan, or its rejection. */
  lemma UnitIsScanned(s: string, unit: Strings.Unit, at: int, start: int)
    requires s != "" && s[0] != '"' && Strings.ReadUnit(s) == Some(unit)
    ensures ScanLiteral(s, at, start) == if unit.lossy then None else ScanLiteral(s[unit.size..], at + unit.size, start)
  {
    hide Strings.Hex4, Strings.Combine, Strings.IsHigh, Strings.IsLow, ScanLiterals, Strings.LongEscape, Found;
    if s[0] == '\\' && |s| > 1 && s[1] != 'u' {
      assert unit.size == 2 && !unit.lossy;
    }
  }

  /** Text the scan crosses without meeting a quote. */
  lemma {:induction false} ScanCrosses(quoteless: string, rest: string, at: int)
    requires '"' !in quoteless
    ensures ScanLiterals(quoteless + rest, at) == ScanLiterals(rest, at + |quoteless|)
  {
    if quoteless == "" {
      assert quoteless + rest == rest;
    } else {
      assert (quoteless + rest)[1..] == quoteless[1..] + rest;
      ScanCrosses(quoteless[1..], rest, at + 1);
    }
  }

  lemma {:induction false} ScanSkipsSpace(s: string, at: int)
    ensures ScanLiterals(SkipSpace(s), at + |s| - |SkipSpace(s)|) == ScanLiterals(s, at)
  {
    if s != "" && IsSpace(s[0]) {
      ScanSkipsSpace(s[1..], at + 1);
    }
  }

  lemma FirstIsCrossed(s: string, at: int)
    requires s != ""
    ensures s[0] != '"' ==> ScanLiterals(s, at) == ScanLiterals(s[1..], at + 1)
  {
  }

  lemma NumberHasNoQuote(l: Numbers.Literal)
    requires Numbers.ValidLiteral(l)
    ensures '"' !in Numbers.Text(l)
  {
    assert forall i | 0 <= i < |l.whole| :: Numbers.IsDigit(l.whole[i]);
    assert '"' !in Numbers.PartText(l.fraction) && '"' !in Numbers.ExponentPartText(l.exponent);
  }

  lemma WordIsCrossed(s: string, word: string, tree: Tree, at: int)
    requires '"' !in word && WordTree(s, word, tree).Some?
    ensures var p := WordTree(s, word, tree).value;
            && !p.lossy && p.spans == []
            && ScanLiterals(s, at) == ScanLiterals(p.rest, at + |s| - |p.rest|)
  {
    var rest := s[|word|..];
    assert s == word + rest;
    ScanCrosses(word, rest, at);
  }

  lemma ScanString(s: string, at: int)
    requires s != "" && s[0] == '"' && ScalarTree(s, at).Some?
    ensures var p := ScalarTree(s, at).value;
            ScanLiterals(s, at) == Through(p.lossy, p.spans, ScanLiterals(p.rest, at + |s| - |p.rest|))
  {
    hide ScanLiteral, Strings.ReadBody, Through;
    ScanBody(s[1..], at + 1, at);
  }

  lemma ScanNumber(s: string, at: int)
    requires Numbers.ScanNumber(s).Some?
    ensures var rest := Numbers.ScanNumber(s).value.1;
            ScanLiterals(s, at) == ScanLiterals(rest, at + |s| - |rest|)
  {
    hide Numbers.ScanNumber, ScanLiterals, Numbers.Text;
    var (l, rest) := Numbers.ScanNumber(s).value;
    Numbers.ScanSplits(s);
    NumberHasNoQuote(l);
    ScanCrosses(Numbers.Text(l), rest, at);
  }

  lemma ScanScalar(s: string, at: int)
    requires s != "" && ScalarTree(s, at).Some?
    ensures var p := ScalarTree(s, at).value;
            ScanLiterals(s, at) == Through(p.lossy, p.spans, ScanLiterals(p.rest, at + |s| - |p.rest|))
  {
    hide Numbers.ScanNumber, ScanLiterals, Through, WordTree, Strings.ReadBody;
    var p := ScalarTree(s, at).value;
    ThroughNothing(ScanLiterals(p.rest, at + |s| - |p.rest|));
    match s[0]
    case '"' => ScanString(s, at);
    case 'n' => WordIsCrossed(s, "null", TNull, at);
    case 't' => WordIsCrossed(s, "true", TBool(true), at);
    case 'f' => WordIsCrossed(s, "false", TBool(false), at);
    case _ => ScanNumber(s, at);
  }

  lemma ScanKey(s: string, at: int)
    requires KeyTree(s, at).Some?
    ensures var k := KeyTree(s, at).value;
            ScanLiterals(s, at) == Through(k.lossy, [k.span], ScanLiterals(k.rest, at + |s| - |k.rest|))
  {
    hide ScanLiteral, Strings.ReadBody;
    var body := Strings.ReadBody(s[1..]).value;
    ScanBody(s[1..], at + 1, at);
    ScanSkipsSpace(body.rest, at + |s| - |body.rest|);
  }

  /** On every syntactically valid value the scan goes through exactly the literals the grammar finds there, at the
      same positions, and rejects exactly when decoding one of them would replace a surrogate. */
  lemma {:induction false} ScanValue(s: string, at: int)
    requires ValueTree(s, at).Some?
    ensures var p := ValueTree(s, at).value;
            ScanLiterals(s, at) == Through(p.lossy, p.spans, ScanLiterals(p.rest, at + |s| - |p.rest|))
    decreases |s|, 1
  {
    hide ScalarTree, ItemTrees, FieldTrees, Through, ScanLiteral, ScanLiterals, SkipSpace;
    var t := SkipSpace(s);
    var here := at + |s| - |t|;
    ScanSkipsSpace(s, at);
    FirstIsCrossed(t, here);
    if t[0] == '{' {
      ScanFields(t[1..], here + 1, true);
    } else if t[0] == '[' {
      ScanItems(t[1..], here + 1, true);
    } else {
      ScanScalar(t, here);
    }
  }

  lemma {:induction false} ScanItems(s: string, at: int, first: bool)
    requires ItemTrees(s, at, first).Some?
    ensures var l := ItemTrees(s, at, first).value;
            ScanLiterals(s, at) == Through(l.lossy, l.spans, ScanLiterals(l.rest, at + |s| - |l.rest|))
    decreases |s|, 2
  {
    hide Through, ScanLiteral, ScanLiterals, ValueTree, SkipSpace;
    var t := SkipSpace(s);
    ScanSkipsSpace(s, at);
    FirstIsCrossed(t, at + |s| - |t|);
    if t[0] == ']' {
      ThroughNothing(ScanLiterals(t[1..], at + |s| - |t| + 1));
    } else {
      var u := if first then t else t[1..];
      var p := ValueTree(u, at + |s| - |u|).value;
      var l := ItemTrees(p.rest, at + |s| - |p.rest|, false).value;
      ScanValue(u, at + |s| - |u|);
      ScanItems(p.rest, at + |s| - |p.rest|, false);
      ThroughTwice(p.lossy, p.spans, l.lossy, l.spans, ScanLiterals(l.rest, at + |s| - |l.rest|));
    }
  }

  lemma {:induction false} ScanFields(s: string, at: int, first: bool)
    requires FieldTrees(s, at, first).Some?
    ensures var l := FieldTrees(s, at, first).value;
            ScanLiterals(s, at) == Through(l.lossy, l.spans, ScanLiterals(l.rest, at + |s| - |l.rest|))
    decreases |s|, 2
  {
    hide Through, ScanLiteral, ScanLiterals, ValueTree, KeyTree, SkipSpace, ConsSpelled;
    var t := SkipSpace(s);
    ScanSkipsSpace(s, at);
    FirstIsCrossed(t, at + |s| - |t|);
    if t[0] == '}' {
      ThroughNothing(ScanLiterals(t[1..], at + |s| - |t| + 1));
    } else {
      var u := if first then t else SkipSpace(t[1..]);
      ScanSkipsSpace(t[1..], at + |s| - |t| + 1);
      ScanMember(s, u, at, first);
    }
  }

  lemma {:induction false} ScanMember(s: string, u: string, at: int, first: bool)
    requires MemberStart(s, first) == Some(u) && |u| <= |s| && FieldTrees(s, at, first).Some?
    requires ScanLiterals(s, at) == ScanLiterals(u, at + |s| - |u|)
    ensures var l := FieldTrees(s, at, first).value;
            ScanLiterals(s, at) == Through(l.lossy, l.spans, ScanLiterals(l.rest, at + |s| - |l.rest|))
    decreases |s|, 1
  {
    hide Through, ScanLiteral, ScanLiterals, ValueTree, FieldTrees, KeyTree, MemberStart;
    NextSpelled(s, at, first, u);
    var k := KeyTree(u, at + |s| - |u|).value;
    var p := ValueTree(k.rest, at + |s| - |k.rest|).value;
    var l := FieldTrees(p.rest, at + |s| - |p.rest|, false).value;
    var end := ScanLiterals(l.rest, at + |s| - |l.rest|);
    ScanKey(u, at + |s| - |u|);
    ScanValue(k.rest, at + |s| - |k.rest|);
    ScanFields(p.rest, at + |s| - |p.rest|, false);
    ThroughTwice(p.lossy, p.spans, l.lossy, l.spans, end);
    ThroughTwice(k.lossy, [k.span], p.lossy || l.lossy, p.spans + l.spans, end);
    assert [k.span] + (p.spans + l.spans) == [k.span] + p.spans + l.spans;
  }

  lemma {:induction false} ScanFindsNothingInSpace(s: string, at: int)
    requires SkipSpace(s) == ""
    ensures ScanLiterals(s, at) == Some([])
  {
    ScanSkipsSpace(s, at);
  }

  /** On every syntactically valid text, repeated names and numbers of any size included, the encoding scan accepts
      exactly when no literal's escapes leave a surrogate unpaired, and its split into literals is the grammar's. */
  lemma ScanIsExact(s: string)
    requires ValidText(s)
    ensures var p := ValueTree(s, 0).value;
            && ScanLiterals(s, 0) == (if p.lossy then None else Some(p.spans))
            && (Strings.ScanOutside(s) <==> !p.lossy)
  {
    hide ScanLiterals, ScanLiteral, ValueTree;
    var p := ValueTree(s, 0).value;
    ScanValue(s, 0);
    ScanFindsNothingInSpace(p.rest, |s| - |p.rest|);
    ScanLiteralsAccepts(s, 0);
    assert p.spans + [] == p.spans;
  }

  /** On every text the reader accepts, the scan accepts exactly when no surrogate was replaced. */
  lemma ScanAgrees(s: string, budget: int)
    requires ReadValue(s, budget).Parsed?
    ensures var p := ReadValue(s, budget); Strings.ScanOutside(s) <==> !p.lossy && Strings.ScanOutside(p.rest)
  {
    hide ReadValue, ValueTree, ScanLiterals;
    ReaderReads(s, 0, budget);
    var p := ValueTree(s, 0).value;
    ScanValue(s, 0);
    ScanLiteralsAccepts(s, 0);
    ScanLiteralsAccepts(p.rest, |s| - |p.rest|);
  }
}
