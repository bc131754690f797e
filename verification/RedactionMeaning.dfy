/**
 What a redacted text or document is, told by the pseudonym table it ends with and by the
 words and patterns themselves, whatever order the redactor went in.
*/
module RedactionMeaning {
  import opened Wrappers
  import opened Text
  import opened Json
  import opened CaseLaws
  import opened Utf8
  import opened Replacement
  import opened Redaction

  ghost predicate Extends(table: map<Key, string>, table': map<Key, string>) {
    forall key <- table :: key in table' && table'[key] == table[key]
  }

  /** The table's name for the text. */
  predicate Named(table: map<Key, string>, kind: string, raw: string, name: string) {
    (kind, raw) in table && table[(kind, raw)] == name
  }

  // ----- the reviewed map -----------------------------------------------------------------

  /** Three bytes of source at least, beside white space, and a bracketed synthetic name that is not the source. */
  ghost predicate GoodEntry(entry: Rule) {
    && |Encode(Trim(entry.source))| >= 3 && entry.source != entry.replacement
    && exists name :: entry.replacement == "<SYNTHETIC_" + name + ">"
  }

  lemma GoodEntryIff(entry: Rule)
    ensures Reviewed(entry) <==> GoodEntry(entry)
  {
    var r := entry.replacement;
    LengthIsEncoded(Trim(entry.source));
    if StartsWith(r, "<SYNTHETIC_") && EndsWith(r, ">") {
      assert r[10] == "<SYNTHETIC_"[10] && r[|r| - 1] == r[|r| - 1..][0] == '>';
      assert r == "<SYNTHETIC_" + r[11..|r| - 1] + ">";
    }
    if name :| r == "<SYNTHETIC_" + name + ">" {
      assert r[|r| - 1..] == ">";
    }
  }

  /** The map is accepted exactly if it has entries, all good, no two with the same source or the same replacement. */
  lemma AcceptedIff(entries: seq<Rule>)
    ensures Acceptable(entries) <==>
      && entries != [] && (forall i :: 0 <= i < |entries| ==> GoodEntry(entries[i]))
      && forall i, j :: 0 <= i < j < |entries| ==>
           entries[i].source != entries[j].source && entries[i].replacement != entries[j].replacement
  {
    forall i | 0 <= i < |entries| ensures Reviewed(entries[i]) <==> GoodEntry(entries[i]) {
      GoodEntryIff(entries[i]);
    }
  }

  // ----- texts ----------------------------------------------------------------------------

  function DigitPlaces(s: string): set<int> {
    set i | 0 <= i < |s| && '0' <= s[i] <= '9'
  }

  predicate FewDigits(s: string) {
    |DigitPlaces(s)| < 10
  }

  /** What a piece becomes: only a match is replaced, and not one of kind PHONE with fewer than ten digits. */
  predicate Becomes(table: map<Key, string>, kind: string, piece: Piece, text: string) {
    match piece
    case Plain(plain) => text == plain
    case Matched(matched) =>
      if kind == "PHONE" && FewDigits(matched) then text == matched else Named(table, kind, matched, text)
  }

  function Concat(texts: seq<string>): string {
    if texts == [] then "" else texts[0] + Concat(texts[1..])
  }

  predicate BecomeAll(table: map<Key, string>, kind: string, pieces: seq<Piece>, texts: seq<string>) {
    |texts| == |pieces| && forall i :: 0 <= i < |pieces| ==> Becomes(table, kind, pieces[i], texts[i])
  }

  ghost predicate Rendered(table: map<Key, string>, kind: string, pieces: seq<Piece>, text: string) {
    exists texts :: BecomeAll(table, kind, pieces, texts) && text == Concat(texts)
  }

  /** One pattern after the other, each on what the one before left. */
  ghost predicate PatternsApplied(table: map<Key, string>, patterns: seq<Pattern>, stages: seq<string>) {
    && |stages| == |patterns| + 1
    && forall i :: 0 <= i < |patterns| ==>
         Rendered(table, patterns[i].kind, patterns[i].pieces(stages[i]), stages[i + 1])
  }

  ghost predicate TextRedacted(c: Config, table: map<Key, string>, before: string, after: string)
    requires Usable(c.rules)
  {
    exists stages :: Leads(c, table, before, after, stages)
  }

  /** From the text with the reviewed sources replaced, pattern by pattern, to the redacted one. */
  ghost predicate Leads(c: Config, table: map<Key, string>, before: string, after: string, stages: seq<string>)
    requires Usable(c.rules)
  {
    && PatternsApplied(table, c.patterns, stages)
    && stages[0] == ReplaceAll(c.rules, before) && stages[|stages| - 1] == after
  }

  lemma {:induction false} LastDigitCounted(s: string, c: char)
    ensures DigitCount(s + [c]) == DigitCount(s) + if '0' <= c <= '9' then 1 else 0
  {
    if s == "" {
      assert (s + [c])[1..] == "";
    } else {
      assert (s + [c])[1..] == s[1..] + [c];
      LastDigitCounted(s[1..], c);
    }
  }

  lemma {:induction false} DigitsCounted(s: string)
    ensures DigitCount(s) == |DigitPlaces(s)|
  {
    if s == "" {
      assert DigitPlaces(s) == {};
    } else {
      var front, c := s[..|s| - 1], s[|s| - 1];
      assert s == front + [c];
      DigitsCounted(front);
      LastDigitCounted(front, c);
      assert DigitPlaces(s) == DigitPlaces(front) + if '0' <= c <= '9' then {|s| - 1} else {};
    }
  }

  lemma NameIsKept(memo: Memo, kind: string, raw: string)
    ensures
      var (after, name) := SyntheticId(memo, kind, raw);
      Extends(memo.synthetic, after.synthetic) && Named(after.synthetic, kind, raw, name)
  {
  }

  lemma BecomesLater(table: map<Key, string>, table': map<Key, string>, kind: string, piece: Piece, text: string)
    requires Extends(table, table') && Becomes(table, kind, piece, text)
    ensures Becomes(table', kind, piece, text)
  {
    if piece.Matched? {
      assert (kind, piece.text) in table ==> (kind, piece.text) in table';
    }
  }

  /** Each match that is replaced gets the table's name for it, and everything else stays in place. */
  lemma {:induction false} PiecesRendered(memo: Memo, kind: string, pieces: seq<Piece>) returns (texts: seq<string>)
    ensures
      var (after, text) := RedactPieces(memo, kind, pieces);
      && Extends(memo.synthetic, after.synthetic)
      && BecomeAll(after.synthetic, kind, pieces, texts) && text == Concat(texts)
    decreases |pieces|
  {
    if pieces == [] {
      texts := [];
    } else {
      var named, first := PieceRendered(memo, kind, pieces);
      texts := PiecesRendered(named, kind, pieces[1..]);
      var after := RedactPieces(named, kind, pieces[1..]).0;
      BecomesLater(named.synthetic, after.synthetic, kind, pieces[0], first);
      texts := [first] + texts;
      assert texts[1..] == texts[1..];
    }
  }

  lemma PieceRendered(memo: Memo, kind: string, pieces: seq<Piece>) returns (named: Memo, first: string)
    requires pieces != []
    ensures Extends(memo.synthetic, named.synthetic) && Becomes(named.synthetic, kind, pieces[0], first)
    ensures
      var (after, rest) := RedactPieces(named, kind, pieces[1..]);
      RedactPieces(memo, kind, pieces) == (after, first + rest)
  {
    DigitsCounted(pieces[0].text);
    if pieces[0].Plain? || (kind == "PHONE" && FewDigits(pieces[0].text)) {
      named, first := memo, pieces[0].text;
    } else {
      var id := SyntheticId(memo, kind, pieces[0].text);
      NameIsKept(memo, kind, pieces[0].text);
      named, first := id.0, id.1;
    }
  }

  lemma RenderedLater(table: map<Key, string>, table': map<Key, string>, kind: string, pieces: seq<Piece>, text: string)
    requires Extends(table, table') && Rendered(table, kind, pieces, text)
    ensures Rendered(table', kind, pieces, text)
  {
    var texts :| BecomeAll(table, kind, pieces, texts) && text == Concat(texts);
    forall i | 0 <= i < |pieces| ensures Becomes(table', kind, pieces[i], texts[i]) {
      BecomesLater(table, table', kind, pieces[i], texts[i]);
    }
    assert BecomeAll(table', kind, pieces, texts);
  }

  lemma {:induction false} PatternsRendered(memo: Memo, patterns: seq<Pattern>, text: string) returns (stages: seq<string>)
    ensures
      var (after, redacted) := RedactPatterns(memo, patterns, text);
      && Extends(memo.synthetic, after.synthetic)
      && PatternsApplied(after.synthetic, patterns, stages)
      && stages[0] == text && stages[|stages| - 1] == redacted
    decreases |patterns|
  {
    if patterns == [] {
      stages := [text];
    } else {
      var kind, pieces := patterns[0].kind, patterns[0].pieces(text);
      var (named, next) := RedactPieces(memo, kind, pieces);
      var texts := PiecesRendered(memo, kind, pieces);
      assert Rendered(named.synthetic, kind, pieces, next);
      stages := PatternsRendered(named, patterns[1..], next);
      var after := RedactPatterns(named, patterns[1..], next).0;
      RenderedLater(named.synthetic, after.synthetic, kind, pieces, next);
      OneMoreStage(after.synthetic, patterns, text, stages);
      stages := [text] + stages;
    }
  }

  lemma OneMoreStage(table: map<Key, string>, patterns: seq<Pattern>, text: string, stages: seq<string>)
    requires patterns != [] && PatternsApplied(table, patterns[1..], stages)
    requires Rendered(table, patterns[0].kind, patterns[0].pieces(text), stages[0])
    ensures PatternsApplied(table, patterns, [text] + stages)
  {
    forall i | 0 <= i < |patterns|
      ensures Rendered(table, patterns[i].kind, patterns[i].pieces(([text] + stages)[i]), ([text] + stages)[i + 1])
    {
      if i > 0 {
        assert patterns[1..][i - 1] == patterns[i];
      }
    }
  }

  lemma TextRendered(c: Config, memo: Memo, text: string)
    requires Usable(c.rules)
    ensures
      var (after, redacted) := RedactText(c, memo, text);
      Extends(memo.synthetic, after.synthetic) && TextRedacted(c, after.synthetic, text, redacted)
  {
    ReplacedTextRendered(
      c, memo.(applied := memo.applied + MatchesAll(c.rules, text)), text, ReplaceAll(c.rules, text));
  }

  lemma ReplacedTextRendered(c: Config, start: Memo, text: string, replaced: string)
    requires Usable(c.rules) && replaced == ReplaceAll(c.rules, text)
    ensures
      var (after, redacted) := RedactPatterns(start, c.patterns, replaced);
      Extends(start.synthetic, after.synthetic) && TextRedacted(c, after.synthetic, text, redacted)
  {
    var (after, redacted) := RedactPatterns(start, c.patterns, replaced);
    var stages := PatternsRendered(start, c.patterns, replaced);
    assert Leads(c, after.synthetic, text, redacted, stages);
  }

  // ----- documents ----------------------------------------------------------------------------

  /** A name that holds one of the secret words in any case. */
  ghost predicate SecretName(name: string) {
    || HoldsWord(name, "password") || HoldsWord(name, "secret") || HoldsWord(name, "api_key")
    || HoldsWord(name, "access_token") || HoldsWord(name, "refresh_token") || HoldsWord(name, "authorization")
    || HoldsWord(name, "cookie") || HoldsWord(name, "credential")
  }

  /** A name that is one of the identity words in any case. */
  predicate IdentityName(name: string) {
    || SameWord(name, "principal_id") || SameWord(name, "user_id") || SameWord(name, "username")
    || SameWord(name, "display_name") || SameWord(name, "email") || SameWord(name, "phone")
    || SameWord(name, "native_id") || SameWord(name, "recipient") || SameWord(name, "conversation_id")
    || SameWord(name, "assertion_id") || SameWord(name, "evidence_id") || SameWord(name, "extraction_run_id")
    || SameWord(name, "reviewer_id") || SameWord(name, "scope")
  }

  lemma TokenWordsIff(name: string)
    ensures (exists i :: 3 <= i < 8 && Contains(Lower(name), SECRET_PARTS[i])) <==>
      || HoldsWord(name, "access_token") || HoldsWord(name, "refresh_token") || HoldsWord(name, "authorization")
      || HoldsWord(name, "cookie") || HoldsWord(name, "credential")
  {
    LowerContainsIff(name, "access_token");
    LowerContainsIff(name, "refresh_token");
    LowerContainsIff(name, "authorization");
    LowerContainsIff(name, "cookie");
    LowerContainsIff(name, "credential");
    assert SECRET_PARTS[3] == "access_token" && SECRET_PARTS[4] == "refresh_token";
    assert SECRET_PARTS[5] == "authorization" && SECRET_PARTS[6] == "cookie" && SECRET_PARTS[7] == "credential";
  }

  lemma SecretNameIff(name: string)
    ensures IsSecretField(name) <==> SecretName(name)
  {
    TokenWordsIff(name);
    LowerContainsIff(name, "password");
    LowerContainsIff(name, "secret");
    LowerContainsIff(name, "api_key");
    assert SECRET_PARTS[0] == "password" && SECRET_PARTS[1] == "secret" && SECRET_PARTS[2] == "api_key";
    assert |SECRET_PARTS| == 8;
  }

  lemma FirstIdentityWords(name: string)
    ensures
      Lower(name) in IDENTITY_FIELDS[..7] <==>
      || SameWord(name, "principal_id") || SameWord(name, "user_id") || SameWord(name, "username")
      || SameWord(name, "display_name") || SameWord(name, "email") || SameWord(name, "phone")
      || SameWord(name, "native_id")
  {
    LowerIsSameWord(name, "principal_id");
    LowerIsSameWord(name, "user_id");
    LowerIsSameWord(name, "username");
    LowerIsSameWord(name, "display_name");
    LowerIsSameWord(name, "email");
    LowerIsSameWord(name, "phone");
    LowerIsSameWord(name, "native_id");
    assert IDENTITY_FIELDS[..7] ==
      ["principal_id", "user_id", "username", "display_name", "email", "phone", "native_id"];
  }

  lemma LastIdentityWords(name: string)
    ensures
      Lower(name) in IDENTITY_FIELDS[7..] <==>
      || SameWord(name, "recipient") || SameWord(name, "conversation_id")
      || SameWord(name, "assertion_id") || SameWord(name, "evidence_id") || SameWord(name, "extraction_run_id")
      || SameWord(name, "reviewer_id") || SameWord(name, "scope")
  {
    LowerIsSameWord(name, "recipient");
    LowerIsSameWord(name, "conversation_id");
    LowerIsSameWord(name, "assertion_id");
    LowerIsSameWord(name, "evidence_id");
    LowerIsSameWord(name, "extraction_run_id");
    LowerIsSameWord(name, "reviewer_id");
    LowerIsSameWord(name, "scope");
    assert IDENTITY_FIELDS[7..] ==
      ["recipient", "conversation_id", "assertion_id", "evidence_id", "extraction_run_id", "reviewer_id", "scope"];
  }

  lemma IdentityNameIff(name: string)
    ensures Lower(name) in IDENTITY_FIELDS <==> IdentityName(name)
  {
    FirstIdentityWords(name);
    LastIdentityWords(name);
    assert IDENTITY_FIELDS == IDENTITY_FIELDS[..7] + IDENTITY_FIELDS[7..];
  }

  ghost predicate FieldRedacted(c: Config, table: map<Key, string>, before: Field, after: Field)
    requires Usable(c.rules)
    decreases before
  {
    && after.name == before.name
    && if SecretName(before.name) then after.value == Str("<REDACTED_SECRET>")
       else if IdentityName(before.name) then
         && after.value.Str?
         && Named(table, "PERSON", if before.value.Str? then before.value.s else "unknown", after.value.s)
       else Redacted(c, table, before.value, after.value)
  }

  ghost predicate Redacted(c: Config, table: map<Key, string>, before: Json, after: Json)
    requires Usable(c.rules)
    decreases before
  {
    match before
    case Obj(fields) => after.Obj? && FieldsRedacted(c, table, fields, after.fields)
    case Arr(items) => after.Arr? && ItemsRedacted(c, table, items, after.items)
    case Str(text) => after.Str? && TextRedacted(c, table, text, after.s)
    case _ => after == before
  }

  ghost predicate FieldsRedacted(c: Config, table: map<Key, string>, before: seq<Field>, after: seq<Field>)
    requires Usable(c.rules)
    decreases before
  {
    |after| == |before| && forall i :: 0 <= i < |before| ==> FieldRedacted(c, table, before[i], after[i])
  }

  ghost predicate ItemsRedacted(c: Config, table: map<Key, string>, before: seq<Json>, after: seq<Json>)
    requires Usable(c.rules)
    decreases before
  {
    |after| == |before| && forall i :: 0 <= i < |before| ==> Redacted(c, table, before[i], after[i])
  }

  lemma TextRedactedLater(c: Config, table: map<Key, string>, table': map<Key, string>, before: string, after: string)
    requires Usable(c.rules) && Extends(table, table') && TextRedacted(c, table, before, after)
    ensures TextRedacted(c, table', before, after)
  {
    var stages :| Leads(c, table, before, after, stages);
    forall i | 0 <= i < |c.patterns|
      ensures Rendered(table', c.patterns[i].kind, c.patterns[i].pieces(stages[i]), stages[i + 1])
    {
      RenderedLater(table, table', c.patterns[i].kind, c.patterns[i].pieces(stages[i]), stages[i + 1]);
    }
    assert Leads(c, table', before, after, stages);
  }

  lemma {:induction false} FieldRedactedLater(
      c: Config, table: map<Key, string>, table': map<Key, string>, before: Field, after: Field)
    requires Usable(c.rules) && Extends(table, table') && FieldRedacted(c, table, before, after)
    ensures FieldRedacted(c, table', before, after)
    decreases before
  {
    if !SecretName(before.name) && !IdentityName(before.name) {
      RedactedLater(c, table, table', before.value, after.value);
    }
  }

  lemma {:induction false} RedactedLater(
      c: Config, table: map<Key, string>, table': map<Key, string>, before: Json, after: Json)
    requires Usable(c.rules) && Extends(table, table') && Redacted(c, table, before, after)
    ensures Redacted(c, table', before, after)
    decreases before
  {
    match before {
      case Obj(fields) =>
        forall i | 0 <= i < |fields| ensures FieldRedacted(c, table', fields[i], after.fields[i]) {
          FieldRedactedLater(c, table, table', fields[i], after.fields[i]);
        }
      case Arr(items) =>
        forall i | 0 <= i < |items| ensures Redacted(c, table', items[i], after.items[i]) {
          RedactedLater(c, table, table', items[i], after.items[i]);
        }
      case Str(text) => TextRedactedLater(c, table, table', text, after.s);
      case _ =>
    }
  }

  lemma {:induction false} FieldMeaning(c: Config, memo: Memo, field: Field)
    requires Usable(c.rules)
    ensures
      var (after, done) := RedactField(c, memo, field);
      Extends(memo.synthetic, after.synthetic) && FieldRedacted(c, after.synthetic, field, done)
    decreases field
  {
    SecretNameIff(field.name);
    IdentityNameIff(field.name);
    if !IsSecretField(field.name) && !IsIdentityField(field.name) {
      DocumentMeaning(c, memo, field.value);
    }
  }

  lemma {:induction false} FieldsMeaning(c: Config, memo: Memo, fields: seq<Field>)
    requires Usable(c.rules)
    ensures
      var (after, done) := RedactFields(c, memo, fields);
      Extends(memo.synthetic, after.synthetic) && FieldsRedacted(c, after.synthetic, fields, done)
    decreases fields
  {
    if fields != [] {
      var (m1, first) := RedactField(c, memo, fields[0]);
      var (m2, rest) := RedactFields(c, m1, fields[1..]);
      FieldMeaning(c, memo, fields[0]);
      FieldsMeaning(c, m1, fields[1..]);
      FieldRedactedLater(c, m1.synthetic, m2.synthetic, fields[0], first);
      OneMoreField(c, m2.synthetic, fields, first, rest);
    }
  }

  lemma OneMoreField(c: Config, table: map<Key, string>, fields: seq<Field>, first: Field, rest: seq<Field>)
    requires Usable(c.rules) && fields != []
    requires FieldRedacted(c, table, fields[0], first) && FieldsRedacted(c, table, fields[1..], rest)
    ensures FieldsRedacted(c, table, fields, [first] + rest)
  {
    forall i | 0 <= i < |fields| ensures FieldRedacted(c, table, fields[i], ([first] + rest)[i]) {
      assert i > 0 ==> fields[i] == fields[1..][i - 1];
    }
  }

  lemma {:induction false} ItemsMeaning(c: Config, memo: Memo, items: seq<Json>)
    requires Usable(c.rules)
    ensures
      var (after, done) := RedactItems(c, memo, items);
      Extends(memo.synthetic, after.synthetic) && ItemsRedacted(c, after.synthetic, items, done)
    decreases items
  {
    if items != [] {
      var (m1, first) := RedactValue(c, memo, items[0]);
      var (m2, rest) := RedactItems(c, m1, items[1..]);
      DocumentMeaning(c, memo, items[0]);
      ItemsMeaning(c, m1, items[1..]);
      RedactedLater(c, m1.synthetic, m2.synthetic, items[0], first);
      OneMoreItem(c, m2.synthetic, items, first, rest);
    }
  }

  lemma OneMoreItem(c: Config, table: map<Key, string>, items: seq<Json>, first: Json, rest: seq<Json>)
    requires Usable(c.rules) && items != []
    requires Redacted(c, table, items[0], first) && ItemsRedacted(c, table, items[1..], rest)
    ensures ItemsRedacted(c, table, items, [first] + rest)
  {
    forall i | 0 <= i < |items| ensures Redacted(c, table, items[i], ([first] + rest)[i]) {
      assert i > 0 ==> items[i] == items[1..][i - 1];
    }
  }

  /** Every value of a redacted document is what its name and the final table say, at every depth. */
  lemma {:induction false} DocumentMeaning(c: Config, memo: Memo, value: Json)
    requires Usable(c.rules)
    ensures
      var (after, done) := RedactValue(c, memo, value);
      Extends(memo.synthetic, after.synthetic) && Redacted(c, after.synthetic, value, done)
    decreases value
  {
    match value {
      case Obj(fields) => FieldsMeaning(c, memo, fields);
      case Arr(items) => ItemsMeaning(c, memo, items);
      case Str(text) => TextRendered(c, memo, text);
      case _ =>
    }
  }

  // ----- the number of replacements -------------------------------------------------------------

  ghost function FieldReplacements(c: Config, field: Field): nat
    requires Usable(c.rules)
    decreases field
  {
    if SecretName(field.name) then 1
    else if IdentityName(field.name) then 0
    else Replacements(c, field.value)
  }

  ghost function FieldsReplacements(c: Config, fields: seq<Field>): nat
    requires Usable(c.rules)
    decreases fields
  {
    if fields == [] then 0 else FieldReplacements(c, fields[0]) + FieldsReplacements(c, fields[1..])
  }

  ghost function ItemsReplacements(c: Config, items: seq<Json>): nat
    requires Usable(c.rules)
    decreases items
  {
    if items == [] then 0 else Replacements(c, items[0]) + ItemsReplacements(c, items[1..])
  }

  /** Secret fields and occurrences of reviewed sources; both depend on the document alone. */
  ghost function Replacements(c: Config, value: Json): nat
    requires Usable(c.rules)
    decreases value
  {
    match value
    case Obj(fields) => FieldsReplacements(c, fields)
    case Arr(items) => ItemsReplacements(c, items)
    case Str(text) => MatchesAll(c.rules, text)
    case _ => 0
  }

  /** The counter has gone up by that much and by one for each new name. */
  predicate Counts(before: Memo, after: Memo, replaced: nat) {
    after.applied - before.applied == replaced + |after.synthetic| - |before.synthetic|
  }

  lemma {:induction false} PiecesCount(memo: Memo, kind: string, pieces: seq<Piece>)
    ensures Counts(memo, RedactPieces(memo, kind, pieces).0, 0)
    decreases |pieces|
  {
    if pieces != [] {
      PiecesCount(memo, kind, pieces[1..]);
      PiecesCount(SyntheticId(memo, kind, pieces[0].text).0, kind, pieces[1..]);
    }
  }

  lemma {:induction false} PatternsCount(memo: Memo, patterns: seq<Pattern>, text: string)
    ensures Counts(memo, RedactPatterns(memo, patterns, text).0, 0)
    decreases |patterns|
  {
    if patterns != [] {
      var (after, redacted) := RedactPieces(memo, patterns[0].kind, patterns[0].pieces(text));
      PiecesCount(memo, patterns[0].kind, patterns[0].pieces(text));
      PatternsCount(after, patterns[1..], redacted);
    }
  }

  lemma {:induction false} FieldCount(c: Config, memo: Memo, field: Field)
    requires Usable(c.rules)
    ensures Counts(memo, RedactField(c, memo, field).0, FieldReplacements(c, field))
    decreases field
  {
    SecretNameIff(field.name);
    IdentityNameIff(field.name);
    if !IsSecretField(field.name) && !IsIdentityField(field.name) {
      ReplacementsCounted(c, memo, field.value);
    }
  }

  lemma {:induction false} FieldsCount(c: Config, memo: Memo, fields: seq<Field>)
    requires Usable(c.rules)
    ensures Counts(memo, RedactFields(c, memo, fields).0, FieldsReplacements(c, fields))
    decreases fields
  {
    if fields != [] {
      FieldCount(c, memo, fields[0]);
      FieldsCount(c, RedactField(c, memo, fields[0]).0, fields[1..]);
    }
  }

  lemma {:induction false} ItemsCount(c: Config, memo: Memo, items: seq<Json>)
    requires Usable(c.rules)
    ensures Counts(memo, RedactItems(c, memo, items).0, ItemsReplacements(c, items))
    decreases items
  {
    if items != [] {
      ReplacementsCounted(c, memo, items[0]);
      ItemsCount(c, RedactValue(c, memo, items[0]).0, items[1..]);
    }
  }

  /** The reported count is that of the replacements made in the document and the names issued for it. */
  lemma {:induction false} ReplacementsCounted(c: Config, memo: Memo, value: Json)
    requires Usable(c.rules)
    ensures Counts(memo, RedactValue(c, memo, value).0, Replacements(c, value))
    decreases value
  {
    match value {
      case Obj(fields) => FieldsCount(c, memo, fields);
      case Arr(items) => ItemsCount(c, memo, items);
      case Str(text) =>
        var start := memo.(applied := memo.applied + MatchesAll(c.rules, text));
        PatternsCount(start, c.patterns, ReplaceAll(c.rules, text));
      case _ =>
    }
  }
}
