/**
 What a run of redactions guarantees: no reviewed source is left in any text or
 document value, pseudonyms are stable and injective, and documents keep their
 shape.
*/
module RedactionSafety {
  import opened Wrappers
  import opened Text
  import opened Json
  import opened Replacement
  import opened Redaction

  // ----- accepted maps -----------------------------------------------------------------------

  predicate DistinctSources(rules: seq<Rule>) {
    forall i, j :: 0 <= i < j < |rules| ==> rules[i].source != rules[j].source
  }

  lemma {:induction false} InsertKeepsDistinct(rule: Rule, rules: seq<Rule>)
    requires SortedByLength(rules) && DistinctSources(rules)
    requires forall i :: 0 <= i < |rules| ==> rules[i].source != rule.source
    ensures DistinctSources(InsertByLength(rule, rules))
  {
    if rules != [] && Utf8Len(rule.source) < Utf8Len(rules[0].source) {
      InsertKeepsDistinct(rule, rules[1..]);
    }
  }

  lemma {:induction false} SortKeepsDistinct(entries: seq<Rule>)
    requires DistinctSources(entries)
    ensures DistinctSources(SortByLength(entries))
    ensures forall i :: 0 <= i < |SortByLength(entries)| ==> SortByLength(entries)[i] in entries
  {
    if entries != [] {
      SortKeepsDistinct(entries[1..]);
      InsertKeepsDistinct(entries[0], SortByLength(entries[1..]));
    }
  }

  lemma ReviewedIsUsable(entry: Rule)
    requires Reviewed(entry)
    ensures entry.source != "" && InBrackets(entry.replacement)
  {
    TrimIsTrimmed(entry.source);
    assert entry.replacement[0] == "<SYNTHETIC_"[0];
  }

  /** An accepted map is applied longest source first, each source once, none empty. */
  lemma AcceptedMapIsOrdered(entries: seq<Rule>)
    requires Acceptable(entries)
    ensures LongestFirst(SortByLength(entries)) && Usable(SortByLength(entries))
    ensures multiset(SortByLength(entries)) == multiset(entries)
    ensures forall i :: 0 <= i < |SortByLength(entries)| ==> InBrackets(SortByLength(entries)[i].replacement)
  {
    SortKeepsDistinct(entries);
    var rules := SortByLength(entries);
    forall i | 0 <= i < |rules| ensures rules[i].source != "" && InBrackets(rules[i].replacement) {
      ReviewedIsUsable(rules[i]);
    }
  }

  // ----- pseudonyms ------------------------------------------------------------------------

  lemma LastUnderscore(x: string, d: string, x': string, d': string)
    requires x + ['_'] + d == x' + ['_'] + d' && '_' !in d && '_' !in d'
    ensures |x| >= |x'|
  {
    var s := x + ['_'] + d;
    assert s[|x'|] == '_';
    assert forall k :: |x| < k < |s| ==> s[k] == d[k - |x| - 1];
  }

  /** Two synthetic names agree only if they carry the same number. */
  lemma NamesDiffer(kind: string, n: nat, kind': string, n': nat)
    requires SyntheticName(kind, n) == SyntheticName(kind', n')
    ensures n == n'
  {
    var x, x' := "SYNTHETIC_" + Upper(kind), "SYNTHETIC_" + Upper(kind');
    var d, d' := PrintNat(n), PrintNat(n');
    assert SyntheticName(kind, n)[1..|SyntheticName(kind, n)| - 1] == x + ['_'] + d;
    assert SyntheticName(kind', n')[1..|SyntheticName(kind', n')| - 1] == x' + ['_'] + d';
    LastUnderscore(x, d, x', d');
    LastUnderscore(x', d', x, d);
    assert d == (x + ['_'] + d)[|x| + 1..] == (x' + ['_'] + d')[|x'| + 1..] == d';
    PrintNatInjective(n, n');
  }

  /** `keys` lists the table's keys in the order their names were issued, numbered from 1. */
  ghost predicate Numbered(table: map<Key, string>, keys: seq<Key>) {
    && |keys| == |table|
    && (forall key :: key in table <==> key in keys)
    && (forall i, j :: 0 <= i < j < |keys| ==> keys[i] != keys[j])
    && (forall i :: 0 <= i < |keys| ==> keys[i] in table && table[keys[i]] == SyntheticName(keys[i].0, i + 1))
  }

  ghost predicate Extends(table: map<Key, string>, table': map<Key, string>) {
    forall key :: key in table ==> key in table' && table'[key] == table[key]
  }

  /** Different keys have different names. */
  lemma NumberedIsInjective(table: map<Key, string>, keys: seq<Key>, a: Key, b: Key)
    requires Numbered(table, keys) && a in table && b in table && table[a] == table[b]
    ensures a == b
  {
    var i :| 0 <= i < |keys| && keys[i] == a;
    var j :| 0 <= j < |keys| && keys[j] == b;
    NamesDiffer(a.0, i + 1, b.0, j + 1);
  }

  lemma IdKeepsNumbers(memo: Memo, kind: string, raw: string, keys: seq<Key>) returns (keys': seq<Key>)
    requires Numbered(memo.synthetic, keys)
    ensures Numbered(SyntheticId(memo, kind, raw).0.synthetic, keys') && keys <= keys'
    ensures Extends(memo.synthetic, SyntheticId(memo, kind, raw).0.synthetic)
  {
    if (kind, raw) in memo.synthetic {
      keys' := keys;
    } else {
      keys' := keys + [(kind, raw)];
      NumberOneMore(memo.synthetic, keys, (kind, raw), SyntheticName(kind, |memo.synthetic| + 1));
    }
  }

  lemma NumberOneMore(table: map<Key, string>, keys: seq<Key>, key: Key, name: string)
    requires Numbered(table, keys) && key !in table && name == SyntheticName(key.0, |table| + 1)
    ensures Numbered(table[key := name], keys + [key])
  {
    var table', keys' := table[key := name], keys + [key];
    assert |table'| == |table| + 1;
    forall i | 0 <= i < |keys'| ensures keys'[i] in table' && table'[keys'[i]] == SyntheticName(keys'[i].0, i + 1) {
      assert i < |keys| ==> keys'[i] == keys[i] && keys[i] in table;
    }
  }

  lemma {:induction false} PiecesKeepNumbers(memo: Memo, kind: string, pieces: seq<Piece>, keys: seq<Key>)
    returns (keys': seq<Key>)
    requires Numbered(memo.synthetic, keys)
    ensures Numbered(RedactPieces(memo, kind, pieces).0.synthetic, keys') && keys <= keys'
    ensures Extends(memo.synthetic, RedactPieces(memo, kind, pieces).0.synthetic)
    decreases |pieces|
  {
    keys' := keys;
    if pieces != [] {
      var named := memo;
      if !(pieces[0].Plain? || Kept(kind, pieces[0].text)) {
        keys' := IdKeepsNumbers(memo, kind, pieces[0].text, keys);
        named := SyntheticId(memo, kind, pieces[0].text).0;
      }
      keys' := PiecesKeepNumbers(named, kind, pieces[1..], keys');
    }
  }

  lemma {:induction false} PatternsKeepNumbers(memo: Memo, patterns: seq<Pattern>, text: string, keys: seq<Key>)
    returns (keys': seq<Key>)
    requires Numbered(memo.synthetic, keys)
    ensures Numbered(RedactPatterns(memo, patterns, text).0.synthetic, keys') && keys <= keys'
    ensures Extends(memo.synthetic, RedactPatterns(memo, patterns, text).0.synthetic)
    decreases |patterns|
  {
    keys' := keys;
    if patterns != [] {
      var (after, redacted) := RedactPieces(memo, patterns[0].kind, patterns[0].pieces(text));
      keys' := PiecesKeepNumbers(memo, patterns[0].kind, patterns[0].pieces(text), keys);
      keys' := PatternsKeepNumbers(after, patterns[1..], redacted, keys');
    }
  }

  lemma {:induction false} FieldKeepsNumbers(c: Config, memo: Memo, field: Field, keys: seq<Key>)
    returns (keys': seq<Key>)
    requires Usable(c.rules) && Numbered(memo.synthetic, keys)
    ensures Numbered(RedactField(c, memo, field).0.synthetic, keys') && keys <= keys'
    ensures Extends(memo.synthetic, RedactField(c, memo, field).0.synthetic)
    decreases field
  {
    keys' := keys;
    if IsIdentityField(field.name) {
      keys' := IdKeepsNumbers(memo, "PERSON", IdentityText(field.value), keys);
    } else if !IsSecretField(field.name) {
      keys' := ValueKeepsNumbers(c, memo, field.value, keys);
    }
  }

  lemma {:induction false} FieldsKeepNumbers(c: Config, memo: Memo, fields: seq<Field>, keys: seq<Key>)
    returns (keys': seq<Key>)
    requires Usable(c.rules) && Numbered(memo.synthetic, keys)
    ensures Numbered(RedactFields(c, memo, fields).0.synthetic, keys') && keys <= keys'
    ensures Extends(memo.synthetic, RedactFields(c, memo, fields).0.synthetic)
    decreases fields
  {
    keys' := keys;
    if fields != [] {
      keys' := FieldKeepsNumbers(c, memo, fields[0], keys);
      keys' := FieldsKeepNumbers(c, RedactField(c, memo, fields[0]).0, fields[1..], keys');
    }
  }

  lemma {:induction false} ItemsKeepNumbers(c: Config, memo: Memo, items: seq<Json>, keys: seq<Key>)
    returns (keys': seq<Key>)
    requires Usable(c.rules) && Numbered(memo.synthetic, keys)
    ensures Numbered(RedactItems(c, memo, items).0.synthetic, keys') && keys <= keys'
    ensures Extends(memo.synthetic, RedactItems(c, memo, items).0.synthetic)
    decreases items
  {
    keys' := keys;
    if items != [] {
      keys' := ValueKeepsNumbers(c, memo, items[0], keys);
      keys' := ItemsKeepNumbers(c, RedactValue(c, memo, items[0]).0, items[1..], keys');
    }
  }

  lemma TextKeepsNumbers(c: Config, memo: Memo, text: string, keys: seq<Key>) returns (keys': seq<Key>)
    requires Usable(c.rules) && Numbered(memo.synthetic, keys)
    ensures Numbered(RedactValue(c, memo, Str(text)).0.synthetic, keys') && keys <= keys'
    ensures Extends(memo.synthetic, RedactValue(c, memo, Str(text)).0.synthetic)
  {
    keys' := PatternsKeepNumbers(
      memo.(applied := memo.applied + MatchesAll(c.rules, text)), c.patterns, ReplaceAll(c.rules, text), keys);
  }

  /** A redaction only adds names, and numbers them on from where the table was. */
  lemma {:induction false} ValueKeepsNumbers(c: Config, memo: Memo, value: Json, keys: seq<Key>)
    returns (keys': seq<Key>)
    requires Usable(c.rules) && Numbered(memo.synthetic, keys)
    ensures Numbered(RedactValue(c, memo, value).0.synthetic, keys') && keys <= keys'
    ensures Extends(memo.synthetic, RedactValue(c, memo, value).0.synthetic)
    decreases value
  {
    match value {
      case Obj(fields) => keys' := FieldsKeepNumbers(c, memo, fields, keys);
      case Arr(items) => keys' := ItemsKeepNumbers(c, memo, items, keys);
      case Str(text) => keys' := TextKeepsNumbers(c, memo, text, keys);
      case _ => keys' := keys;
    }
  }

  // ----- identity values ---------------------------------------------------------------------

  /** The (before, after) texts of the string values under identity fields. */
  function FieldPairs(before: Field, after: Field): set<(string, string)>
    decreases before
  {
    if IsSecretField(before.name) then {}
    else if IsIdentityField(before.name) then
      if before.value.Str? && after.value.Str? then {(before.value.s, after.value.s)} else {}
    else Pairs(before.value, after.value)
  }

  function FieldsPairs(before: seq<Field>, after: seq<Field>): set<(string, string)>
    decreases before
  {
    if before == [] || after == [] then {}
    else FieldPairs(before[0], after[0]) + FieldsPairs(before[1..], after[1..])
  }

  function ItemsPairs(before: seq<Json>, after: seq<Json>): set<(string, string)>
    decreases before
  {
    if before == [] || after == [] then {} else Pairs(before[0], after[0]) + ItemsPairs(before[1..], after[1..])
  }

  function Pairs(before: Json, after: Json): set<(string, string)>
    decreases before
  {
    if before.Obj? && after.Obj? then FieldsPairs(before.fields, after.fields)
    else if before.Arr? && after.Arr? then ItemsPairs(before.items, after.items)
    else {}
  }

  /** The pairs are entries of the table. */
  ghost predicate InTable(pairs: set<(string, string)>, table: map<Key, string>) {
    forall pair :: pair in pairs ==> ("PERSON", pair.0) in table && table[("PERSON", pair.0)] == pair.1
  }

  lemma {:induction false} FieldPairsInTable(c: Config, memo: Memo, field: Field, keys: seq<Key>)
    requires Usable(c.rules) && Numbered(memo.synthetic, keys)
    ensures InTable(FieldPairs(field, RedactField(c, memo, field).1), RedactField(c, memo, field).0.synthetic)
    decreases field
  {
    if !IsSecretField(field.name) && !IsIdentityField(field.name) {
      PairsInTable(c, memo, field.value, keys);
    }
  }

  lemma {:induction false} FieldsPairsInTable(c: Config, memo: Memo, fields: seq<Field>, keys: seq<Key>)
    requires Usable(c.rules) && Numbered(memo.synthetic, keys)
    ensures InTable(FieldsPairs(fields, RedactFields(c, memo, fields).1), RedactFields(c, memo, fields).0.synthetic)
    decreases fields
  {
    if fields != [] {
      var (m1, first) := RedactField(c, memo, fields[0]);
      var (m2, rest) := RedactFields(c, m1, fields[1..]);
      FieldPairsInTable(c, memo, fields[0], keys);
      var keys' := FieldKeepsNumbers(c, memo, fields[0], keys);
      FieldsPairsInTable(c, m1, fields[1..], keys');
      var _ := FieldsKeepNumbers(c, m1, fields[1..], keys');
      assert ([first] + rest)[1..] == rest;
    }
  }

  lemma {:induction false} ItemsPairsInTable(c: Config, memo: Memo, items: seq<Json>, keys: seq<Key>)
    requires Usable(c.rules) && Numbered(memo.synthetic, keys)
    ensures InTable(ItemsPairs(items, RedactItems(c, memo, items).1), RedactItems(c, memo, items).0.synthetic)
    decreases items
  {
    if items != [] {
      var (m1, first) := RedactValue(c, memo, items[0]);
      var (m2, rest) := RedactItems(c, m1, items[1..]);
      PairsInTable(c, memo, items[0], keys);
      var keys' := ValueKeepsNumbers(c, memo, items[0], keys);
      ItemsPairsInTable(c, m1, items[1..], keys');
      var _ := ItemsKeepNumbers(c, m1, items[1..], keys');
      assert ([first] + rest)[1..] == rest;
    }
  }

  lemma {:induction false} PairsInTable(c: Config, memo: Memo, value: Json, keys: seq<Key>)
    requires Usable(c.rules) && Numbered(memo.synthetic, keys)
    ensures InTable(Pairs(value, RedactValue(c, memo, value).1), RedactValue(c, memo, value).0.synthetic)
    decreases value
  {
    match value {
      case Obj(fields) => FieldsPairsInTable(c, memo, fields, keys);
      case Arr(items) => ItemsPairsInTable(c, memo, items, keys);
      case _ =>
    }
  }

  /**
   Over a whole run of documents (the items of one list): two string values under
   identity fields, anywhere, end up equal exactly when they were equal.
  */
  lemma IdentitiesStayDistinct(
      c: Config, memo: Memo, documents: seq<Json>, keys: seq<Key>, p: (string, string), q: (string, string))
    requires Usable(c.rules) && Numbered(memo.synthetic, keys)
    requires p in ItemsPairs(documents, RedactItems(c, memo, documents).1)
    requires q in ItemsPairs(documents, RedactItems(c, memo, documents).1)
    ensures p.0 == q.0 <==> p.1 == q.1
  {
    ItemsPairsInTable(c, memo, documents, keys);
    var keys' := ItemsKeepNumbers(c, memo, documents, keys);
    if p.1 == q.1 {
      NumberedIsInjective(RedactItems(c, memo, documents).0.synthetic, keys', ("PERSON", p.0), ("PERSON", q.0));
    }
  }

  // ----- sources in redacted texts -------------------------------------------------------------

  /** No issued name holds the needle. */
  ghost predicate NamesAvoid(table: map<Key, string>, needle: string) {
    forall key :: key in table ==> InBrackets(table[key]) && !Contains(table[key], needle)
  }

  /** No name that may still be issued holds it either. */
  ghost predicate KindAvoids(kind: string, needle: string) {
    forall n: nat :: n > 0 ==> !Contains(SyntheticInner(kind, n), needle)
  }

  ghost predicate PatternsAvoid(patterns: seq<Pattern>, needle: string) {
    forall i :: 0 <= i < |patterns| ==> KindAvoids(patterns[i].kind, needle)
  }

  predicate Searchable(needle: string) {
    needle != "" && BracketFree(needle)
  }

  lemma IdAvoids(memo: Memo, kind: string, raw: string, needle: string)
    requires Searchable(needle) && NamesAvoid(memo.synthetic, needle) && KindAvoids(kind, needle)
    ensures NamesAvoid(SyntheticId(memo, kind, raw).0.synthetic, needle)
    ensures InBrackets(SyntheticId(memo, kind, raw).1) && !Contains(SyntheticId(memo, kind, raw).1, needle)
  {
    var n := |memo.synthetic| + 1;
    BracketSeparates("", SyntheticInner(kind, n), "", needle);
  }

  lemma FrontAvoids(front: string, piece: string, tail: string, needle: string)
    requires !Contains(front + (piece + tail), needle)
    ensures !Contains(front, needle)
  {
    assert front + (piece + tail) == front + piece + tail;
    PartContained(front, piece, tail, needle);
  }

  lemma NamedPieceAvoids(front: string, inner: string, rest: string, needle: string)
    requires Searchable(needle) && !Contains("<" + inner + ">", needle)
    requires !Contains(front, needle) && !Contains(rest, needle)
    ensures !Contains(front + (("<" + inner + ">") + rest), needle)
  {
    BracketSeparates(front, inner, rest, needle);
    assert front + (("<" + inner + ">") + rest) == front + ("<" + inner + ">") + rest;
  }

  lemma TailAvoids(front: string, piece: string, tail: string, needle: string)
    requires !Contains(front + (piece + tail), needle)
    ensures !Contains(tail, needle)
  {
    assert front + (piece + tail) == front + piece + tail;
    PartContained(front, piece, tail, needle);
  }

  lemma NamedFrontAvoids(front: string, piece: string, tail: string, name: string, rest: string, needle: string)
    requires Searchable(needle) && InBrackets(name) && !Contains(name, needle)
    requires !Contains(front + (piece + tail), needle) && !Contains(rest, needle)
    ensures !Contains(front + (name + rest), needle)
  {
    FrontAvoids(front, piece, tail, needle);
    assert name == "<" + Inner(name) + ">";
    NamedPieceAvoids(front, Inner(name), rest, needle);
  }

  lemma Regroup(a: string, b: string, c: string)
    ensures a + (b + c) == a + b + c
  {
  }

  /** Behind any unreplaced text, naming matches brings no new occurrence. */
  lemma {:induction false} PiecesAvoid(memo: Memo, kind: string, pieces: seq<Piece>, needle: string, front: string)
    requires Searchable(needle) && NamesAvoid(memo.synthetic, needle) && KindAvoids(kind, needle)
    requires !Contains(front + Glue(pieces), needle)
    ensures NamesAvoid(RedactPieces(memo, kind, pieces).0.synthetic, needle)
    ensures !Contains(front + RedactPieces(memo, kind, pieces).1, needle)
    decreases |pieces|
  {
    if pieces != [] {
      var piece, tail := pieces[0], pieces[1..];
      if piece.Plain? || Kept(kind, piece.text) {
        Regroup(front, piece.text, Glue(tail));
        PiecesAvoid(memo, kind, tail, needle, front + piece.text);
        Regroup(front, piece.text, RedactPieces(memo, kind, tail).1);
      } else {
        var (named, name) := SyntheticId(memo, kind, piece.text);
        IdAvoids(memo, kind, piece.text, needle);
        TailAvoids(front, piece.text, Glue(tail), needle);
        assert "" + Glue(tail) == Glue(tail);
        PiecesAvoid(named, kind, tail, needle, "");
        var rest := RedactPieces(named, kind, tail).1;
        assert "" + rest == rest;
        NamedFrontAvoids(front, piece.text, Glue(tail), name, rest, needle);
      }
    }
  }

  lemma {:induction false} PatternsAddNothing(memo: Memo, patterns: seq<Pattern>, text: string, needle: string)
    requires Searchable(needle) && NamesAvoid(memo.synthetic, needle)
    requires Faithful(patterns) && PatternsAvoid(patterns, needle) && !Contains(text, needle)
    ensures NamesAvoid(RedactPatterns(memo, patterns, text).0.synthetic, needle)
    ensures !Contains(RedactPatterns(memo, patterns, text).1, needle)
    decreases |patterns|
  {
    if patterns != [] {
      var pieces := patterns[0].pieces(text);
      assert Glue(pieces) == text;
      assert "" + Glue(pieces) == text;
      PiecesAvoid(memo, patterns[0].kind, pieces, needle, "");
      var (after, redacted) := RedactPieces(memo, patterns[0].kind, pieces);
      assert "" + redacted == redacted;
      assert Faithful(patterns[1..]) by {
        forall i, t | 0 <= i < |patterns[1..]| ensures Glue(patterns[1..][i].pieces(t)) == t {
          assert patterns[1..][i] == patterns[i + 1];
        }
      }
      PatternsAddNothing(after, patterns[1..], redacted, needle);
    }
  }

  /** Everything about the reviewed map, the source and the patterns that its removal takes. */
  ghost predicate Replaceable(c: Config, needle: string) {
    && AllBracketed(c.rules) && LongestFirst(c.rules) && SettledClean(c.rules) && Faithful(c.patterns)
    && IsSource(c.rules, needle) && PatternsAvoid(c.patterns, needle)
  }

  /** The conditions under which one source is gone from everything redacted. */
  ghost predicate Removable(c: Config, needle: string) {
    Replaceable(c, needle) && KindAvoids("PERSON", needle) && !Contains(REDACTED_SECRET, needle)
  }

  lemma RedactedTextHasNoSource(c: Config, memo: Memo, text: string, needle: string)
    requires Removable(c, needle) && NamesAvoid(memo.synthetic, needle)
    ensures NamesAvoid(RedactText(c, memo, text).0.synthetic, needle)
    ensures !Contains(RedactText(c, memo, text).1, needle)
  {
    RemovesSourcesIff(c.rules);
    PatternsAddNothing(
      memo.(applied := memo.applied + MatchesAll(c.rules, text)), c.patterns, ReplaceAll(c.rules, text), needle);
  }

  /** No string value anywhere in the document holds the needle. */
  ghost predicate ValueFree(value: Json, needle: string)
    decreases value
  {
    match value
    case Str(text) => !Contains(text, needle)
    case Arr(items) => forall i :: 0 <= i < |items| ==> ValueFree(items[i], needle)
    case Obj(fields) => forall i :: 0 <= i < |fields| ==> FieldFree(fields[i], needle)
    case _ => true
  }

  ghost predicate FieldFree(field: Field, needle: string)
    decreases field
  {
    ValueFree(field.value, needle)
  }

  lemma {:induction false} FieldHasNoSource(c: Config, memo: Memo, field: Field, needle: string)
    requires Removable(c, needle) && NamesAvoid(memo.synthetic, needle)
    ensures NamesAvoid(RedactField(c, memo, field).0.synthetic, needle)
    ensures FieldFree(RedactField(c, memo, field).1, needle)
    decreases field
  {
    if IsIdentityField(field.name) {
      IdAvoids(memo, "PERSON", IdentityText(field.value), needle);
    } else if !IsSecretField(field.name) {
      DocumentHasNoSource(c, memo, field.value, needle);
    }
  }

  lemma {:induction false} FieldsHaveNoSource(c: Config, memo: Memo, fields: seq<Field>, needle: string)
    requires Removable(c, needle) && NamesAvoid(memo.synthetic, needle)
    ensures NamesAvoid(RedactFields(c, memo, fields).0.synthetic, needle)
    ensures forall i :: 0 <= i < |RedactFields(c, memo, fields).1| ==> FieldFree(RedactFields(c, memo, fields).1[i], needle)
    decreases fields
  {
    if fields != [] {
      FieldHasNoSource(c, memo, fields[0], needle);
      FieldsHaveNoSource(c, RedactField(c, memo, fields[0]).0, fields[1..], needle);
    }
  }

  lemma {:induction false} ItemsHaveNoSource(c: Config, memo: Memo, items: seq<Json>, needle: string)
    requires Removable(c, needle) && NamesAvoid(memo.synthetic, needle)
    ensures NamesAvoid(RedactItems(c, memo, items).0.synthetic, needle)
    ensures forall i :: 0 <= i < |RedactItems(c, memo, items).1| ==> ValueFree(RedactItems(c, memo, items).1[i], needle)
    decreases items
  {
    if items != [] {
      DocumentHasNoSource(c, memo, items[0], needle);
      ItemsHaveNoSource(c, RedactValue(c, memo, items[0]).0, items[1..], needle);
    }
  }

  /** No string value of a redacted document holds a reviewed source. */
  lemma {:induction false} DocumentHasNoSource(c: Config, memo: Memo, value: Json, needle: string)
    requires Removable(c, needle) && NamesAvoid(memo.synthetic, needle)
    ensures NamesAvoid(RedactValue(c, memo, value).0.synthetic, needle)
    ensures ValueFree(RedactValue(c, memo, value).1, needle)
    decreases value
  {
    match value {
      case Obj(fields) => FieldsHaveNoSource(c, memo, fields, needle);
      case Arr(items) => ItemsHaveNoSource(c, memo, items, needle);
      case Str(text) => RedactedTextHasNoSource(c, memo, text, needle);
      case _ =>
    }
  }

  // ----- documents that show what a source must not be ---------------------------------------

  /** A document with one identity field. */
  function Person(n: nat): Json {
    Obj([Field("email", Str(PrintNat(n)))])
  }

  function Renamed(name: string): Json {
    Obj([Field("email", Str(name))])
  }

  function People(k: nat, n: nat): seq<Json>
    decreases n - k
  {
    if k >= n then [] else [Person(k + 1)] + People(k + 1, n)
  }

  lemma EmailIsIdentity()
    ensures IsIdentityField("email") && !IsSecretField("email")
  {
    assert Lower("email") == "email";
    assert IDENTITY_FIELDS[4] == "email";
    forall i | 0 <= i < |SECRET_PARTS| ensures !Contains("email", SECRET_PARTS[i]) {
      TooLongToContain("email", SECRET_PARTS[i]);
    }
  }

  lemma {:induction false} TooLongToContain(s: string, needle: string)
    requires |needle| > |s|
    ensures !Contains(s, needle)
  {
    if s != "" {
      TooLongToContain(s[1..], needle);
    }
  }

  lemma CookieIsSecret()
    ensures IsSecretField("cookie")
  {
    assert Lower("cookie") == "cookie";
    assert SECRET_PARTS[6] == "cookie" && Contains("cookie", "cookie");
  }

  lemma PersonIsNamed(c: Config, memo: Memo, n: nat)
    requires Usable(c.rules) && ("PERSON", PrintNat(n)) !in memo.synthetic
    ensures
      var name := SyntheticName("PERSON", |memo.synthetic| + 1);
      RedactValue(c, memo, Person(n)) ==
        (Memo(memo.synthetic[("PERSON", PrintNat(n)) := name], memo.applied + 1), Renamed(name))
  {
    EmailIsIdentity();
    var field := Field("email", Str(PrintNat(n)));
    var (after, done) := RedactField(c, memo, field);
    OneField(c, memo, field);
    assert done == Field("email", Str(SyntheticName("PERSON", |memo.synthetic| + 1)));
  }

  lemma OneField(c: Config, memo: Memo, field: Field)
    requires Usable(c.rules)
    ensures
      var (after, done) := RedactField(c, memo, field);
      RedactFields(c, memo, [field]) == (after, [done])
  {
    var (after, done) := RedactField(c, memo, field);
    assert [field][1..] == [] && [field][0] == field;
    assert RedactFields(c, after, []) == (after, []);
    assert [done] + [] == [done];
  }

  /** The numbers after `k` are not known yet. */
  ghost predicate KnownTo(table: map<Key, string>, k: nat) {
    |table| == k && forall n: nat :: n > k ==> ("PERSON", PrintNat(n)) !in table
  }

  /** The last of `n` people gets the name with that number. */
  lemma {:induction false} LastPersonIsNumbered(c: Config, memo: Memo, k: nat, n: nat)
    requires Usable(c.rules) && k < n && KnownTo(memo.synthetic, k)
    ensures
      var items := RedactItems(c, memo, People(k, n)).1;
      |items| == n - k && items[n - k - 1] == Renamed(SyntheticName("PERSON", n))
    decreases n - k
  {
    var (after, first) := RedactValue(c, memo, Person(k + 1));
    PersonIsNamed(c, memo, k + 1);
    assert People(k, n)[1..] == People(k + 1, n);
    if k + 1 < n {
      forall m: nat | m > k + 1 ensures ("PERSON", PrintNat(m)) !in after.synthetic {
        PrintNatInjective(m, k + 1);
      }
      LastPersonIsNumbered(c, after, k + 1, n);
    } else {
      assert People(k + 1, n) == [];
    }
  }

  const NOTHING: Memo := Memo(map[], 0)

  /** Whatever is redacted first, no string value holds the needle. */
  ghost predicate AllDocumentsFree(c: Config, needle: string)
    requires Usable(c.rules)
  {
    forall value :: ValueFree(RedactValue(c, NOTHING, value).1, needle)
  }

  lemma PeopleShowNames(c: Config, needle: string, n: nat)
    requires Usable(c.rules) && n > 0 && AllDocumentsFree(c, needle)
    ensures !Contains(SyntheticName("PERSON", n), needle)
  {
    LastPersonIsNumbered(c, NOTHING, 0, n);
    var items := RedactItems(c, NOTHING, People(0, n)).1;
    assert RedactValue(c, NOTHING, Arr(People(0, n))).1 == Arr(items);
    assert ValueFree(Arr(items), needle);
    assert ValueFree(items[n - 1], needle);
    OneFieldFreeIff("email", SyntheticName("PERSON", n), needle);
  }

  lemma OneFieldFreeIff(key: string, text: string, needle: string)
    ensures ValueFree(Obj([Field(key, Str(text))]), needle) <==> !Contains(text, needle)
  {
    var fields := [Field(key, Str(text))];
    assert FieldFree(fields[0], needle) <==> ValueFree(Str(text), needle);
  }

  lemma CookieShowsMark(c: Config, needle: string)
    requires Usable(c.rules) && AllDocumentsFree(c, needle)
    ensures !Contains(REDACTED_SECRET, needle)
  {
    CookieIsSecret();
    var field, done := Field("cookie", Null), Field("cookie", Str(REDACTED_SECRET));
    OneField(c, NOTHING, field);
    assert RedactValue(c, NOTHING, Obj([field])).1 == Obj([done]);
    OneFieldFreeIff("cookie", REDACTED_SECRET, needle);
  }

  lemma NameHoldsIff(kind: string, n: nat, needle: string)
    requires Searchable(needle)
    ensures Contains(SyntheticName(kind, n), needle) <==> Contains(SyntheticInner(kind, n), needle)
  {
    BracketSeparates("", SyntheticInner(kind, n), "", needle);
    assert "" + ("<" + SyntheticInner(kind, n) + ">") + "" == SyntheticName(kind, n);
  }

  /** No pseudonym a person can get holds the needle. */
  ghost predicate PersonNamesAvoid(needle: string) {
    forall n: nat :: n > 0 ==> !Contains(SyntheticName("PERSON", n), needle)
  }

  /**
   A source the replacements and patterns remove is gone from every redacted document, exactly when no pseudonym a
   person can get holds it and the mark for secrets does not.
  */
  lemma AllDocumentsFreeIff(c: Config, needle: string)
    requires Replaceable(c, needle)
    ensures AllDocumentsFree(c, needle) <==> PersonNamesAvoid(needle) && !Contains(REDACTED_SECRET, needle)
  {
    SourceIsSearchable(c.rules, needle);
    if AllDocumentsFree(c, needle) {
      forall n: nat | n > 0 ensures !Contains(SyntheticName("PERSON", n), needle) {
        PeopleShowNames(c, needle, n);
      }
      CookieShowsMark(c, needle);
    }
    if PersonNamesAvoid(needle) && !Contains(REDACTED_SECRET, needle) {
      forall n: nat | n > 0 ensures !Contains(SyntheticInner("PERSON", n), needle) {
        NameHoldsIff("PERSON", n, needle);
      }
      forall value ensures ValueFree(RedactValue(c, NOTHING, value).1, needle) {
        DocumentHasNoSource(c, NOTHING, value, needle);
      }
    }
  }

  lemma SourceIsSearchable(rules: seq<Rule>, needle: string)
    requires AllBracketed(rules) && IsSource(rules, needle)
    ensures Searchable(needle) && Usable(rules)
  {
  }

  lemma LeakingEntryIsReviewed(entry: Rule)
    requires entry == Rule("SYN", "<SYNTHETIC_X>")
    ensures Reviewed(entry)
  {
    assert Trimmed(entry.source);
    TrimFixed(entry.source);
    assert Utf8Len(entry.source[1..][1..]) == 1;
    assert Utf8Len(entry.source[1..]) == 2;
  }

  lemma LeakingEntryLeaks(entry: Rule)
    requires entry == Rule("SYN", "<SYNTHETIC_X>")
    ensures ReplaceAll([entry], entry.source) == entry.replacement && Contains(entry.replacement, entry.source)
  {
    assert entry.source[|entry.source|..] == "";
    assert Replace(entry.source, entry.source, entry.replacement) == entry.replacement + "" == entry.replacement;
    assert entry.source <= entry.replacement[1..];
    assert Contains(entry.replacement[1..], entry.source);
  }

  /** What construction checks does not give those conditions: an accepted map that leaves its source in place. */
  lemma AcceptedMapMayLeak()
    ensures exists entries: seq<Rule>, i: nat, text: string ::
      && Acceptable(entries) && Usable(entries) && 0 <= i < |entries|
      && Contains(ReplaceAll(entries, text), entries[i].source)
  {
    var entry := Rule("SYN", "<SYNTHETIC_X>");
    var entries := [entry];
    LeakingEntryIsReviewed(entry);
    LeakingEntryLeaks(entry);
    assert Acceptable(entries) && Usable(entries);
    assert Contains(ReplaceAll(entries, entry.source), entries[0].source);
  }

  lemma {:induction false} LacksFirst(s: string, needle: string)
    requires needle != "" && needle[0] !in s
    ensures !Contains(s, needle)
  {
    if s != "" {
      LacksFirst(s[1..], needle);
    }
  }

  lemma BracketEntryIsReviewed(entry: Rule)
    requires entry == Rule("a<SY", "<SYNTHETIC_1>")
    ensures Reviewed(entry)
  {
    TrimFixed(entry.source);
    assert Utf8Len(entry.source[1..][1..]) == 1 + Utf8Len(entry.source[1..][1..][1..]);
    assert Utf8Len(entry.source[1..]) == 1 + Utf8Len(entry.source[1..][1..]);
  }

  /** One reviewed entry is a map. */
  lemma OneEntry(entry: Rule, text: string)
    requires Reviewed(entry) && entry.source != ""
    ensures Acceptable([entry]) && Usable([entry])
    ensures ReplaceAll([entry], text) == Replace(text, entry.source, entry.replacement)
    ensures SettledClean([entry]) <==> !Contains(entry.replacement, entry.source)
  {
    var rules := [entry];
    assert rules[1..] == [] && rules[0] == entry;
    assert Settled(rules, 0) == entry.replacement;
  }

  lemma BracketEntryLeaks(entry: Rule)
    requires entry == Rule("a<SY", "<SYNTHETIC_1>")
    ensures Contains(Replace("aa<SY", entry.source, entry.replacement), entry.source)
  {
    var text := "aa<SY";
    assert text[1] == 'a' && !(entry.source <= text) && text[1..] == entry.source;
    assert entry.source[|entry.source|..] == "";
    assert Replace(entry.source, entry.source, entry.replacement) == entry.replacement + "" == entry.replacement;
    assert Replace(text, entry.source, entry.replacement) == ['a'] + entry.replacement;
    assert entry.source <= ['a'] + entry.replacement;
  }

  /** Nor is the condition on replacements enough for a source with an angle bracket: a replacement may complete it. */
  lemma BracketSourceMayLeak()
    ensures
      var rules := [Rule("a<SY", "<SYNTHETIC_1>")];
      && Acceptable(rules) && Usable(rules) && SettledClean(rules)
      && Contains(ReplaceAll(rules, "aa<SY"), "a<SY")
  {
    var entry := Rule("a<SY", "<SYNTHETIC_1>");
    BracketEntryIsReviewed(entry);
    BracketEntryLeaks(entry);
    LacksFirst(entry.replacement, entry.source);
    OneEntry(entry, "aa<SY");
  }

  lemma MiddleIsContained(a: string, b: string, c: string)
    ensures Contains(a + b + c, b)
  {
    ContainsIffOccurs(a + b + c, b);
  }

  lemma NameHoldsKind(kind: string, n: nat)
    ensures Contains(SyntheticName(kind, n), Upper(kind))
  {
    var front, back := "<" + "SYNTHETIC_", "_" + PrintNat(n) + ">";
    assert SyntheticName(kind, n) == front + Upper(kind) + back;
    MiddleIsContained(front, Upper(kind), back);
  }

  lemma PersonEntryIsClean(entry: Rule)
    requires entry == Rule("PERSON", "<SYNTHETIC_X>")
    ensures Acceptable([entry]) && Usable([entry]) && SettledClean([entry])
  {
    PersonEntryIsReviewed(entry);
    LacksFirst(entry.replacement, entry.source);
    OneEntry(entry, "");
  }

  /** And a source that is gone from every text may come back in a redacted document, as part of a pseudonym. */
  lemma PseudonymMayHoldSource(entry: Rule, n: nat)
    requires entry == Rule("PERSON", "<SYNTHETIC_X>")
    ensures Acceptable([entry]) && Usable([entry]) && SettledClean([entry])
    ensures !ValueFree(RedactValue(Config([entry], []), NOTHING, Person(n)).1, entry.source)
  {
    PersonEntryIsClean(entry);
    var c, none := Config([entry], []), NOTHING.synthetic;
    assert |none| == 0;
    PersonIsNamed(c, NOTHING, n);
    var redacted := Renamed(SyntheticName("PERSON", 1));
    assert RedactValue(c, NOTHING, Person(n)).1 == redacted;
    NameHoldsKind("PERSON", 1);
    assert Upper("PERSON") == "PERSON";
    OneFieldFreeIff("email", SyntheticName("PERSON", 1), "PERSON");
  }

  lemma PersonEntryIsReviewed(entry: Rule)
    requires entry == Rule("PERSON", "<SYNTHETIC_X>")
    ensures Reviewed(entry)
  {
    TrimFixed(entry.source);
    assert Utf8Len(entry.source[1..][1..]) == 1 + Utf8Len(entry.source[1..][1..][1..]);
    assert Utf8Len(entry.source[1..]) == 1 + Utf8Len(entry.source[1..][1..]);
  }

  // ----- shape ----------------------------------------------------------------------------------

  /** Same keys, lengths and non-string values; redacted fields hold a string. */
  ghost predicate SameField(before: Field, after: Field)
    decreases before
  {
    && after.name == before.name
    && (if IsSecretField(before.name) then after.value == Str(REDACTED_SECRET)
        else if IsIdentityField(before.name) then after.value.Str?
        else SameShape(before.value, after.value))
  }

  ghost predicate SameShape(before: Json, after: Json)
    decreases before
  {
    match before
    case Obj(fields) =>
      after.Obj? && |after.fields| == |fields| && forall i :: 0 <= i < |fields| ==> SameField(fields[i], after.fields[i])
    case Arr(items) =>
      after.Arr? && |after.items| == |items| && forall i :: 0 <= i < |items| ==> SameShape(items[i], after.items[i])
    case Str(_) => after.Str?
    case _ => after == before
  }

  lemma {:induction false} FieldShape(c: Config, memo: Memo, field: Field)
    requires Usable(c.rules)
    ensures SameField(field, RedactField(c, memo, field).1)
    decreases field
  {
    if !IsSecretField(field.name) && !IsIdentityField(field.name) {
      ShapeIsKept(c, memo, field.value);
    }
  }

  lemma {:induction false} FieldsShape(c: Config, memo: Memo, fields: seq<Field>)
    requires Usable(c.rules)
    ensures |RedactFields(c, memo, fields).1| == |fields|
    ensures forall i :: 0 <= i < |fields| ==> SameField(fields[i], RedactFields(c, memo, fields).1[i])
    decreases fields
  {
    if fields != [] {
      FieldShape(c, memo, fields[0]);
      FieldsShape(c, RedactField(c, memo, fields[0]).0, fields[1..]);
    }
  }

  lemma {:induction false} ItemsShape(c: Config, memo: Memo, items: seq<Json>)
    requires Usable(c.rules)
    ensures |RedactItems(c, memo, items).1| == |items|
    ensures forall i :: 0 <= i < |items| ==> SameShape(items[i], RedactItems(c, memo, items).1[i])
    decreases items
  {
    if items != [] {
      ShapeIsKept(c, memo, items[0]);
      ItemsShape(c, RedactValue(c, memo, items[0]).0, items[1..]);
    }
  }

  /** Redaction changes string values and redacted fields, nothing else. */
  lemma {:induction false} ShapeIsKept(c: Config, memo: Memo, value: Json)
    requires Usable(c.rules)
    ensures SameShape(value, RedactValue(c, memo, value).1)
    decreases value
  {
    match value {
      case Obj(fields) => FieldsShape(c, memo, fields);
      case Arr(items) => ItemsShape(c, memo, items);
      case _ =>
    }
  }
}
