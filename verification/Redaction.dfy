/**
 The evaluation-fixture redactor: reviewed replacements, pattern matches and
 identity fields become synthetic names, the same value always the same name.
*/
module Redaction {
  import opened Wrappers
  import opened Text
  import opened Json
  import opened Replacement

  // ----- the reviewed replacement map ---------------------------------------------------

  /** What construction checks about one entry of the map. */
  predicate Reviewed(entry: Rule) {
    && Utf8Len(Trim(entry.source)) >= 3
    && StartsWith(entry.replacement, "<SYNTHETIC_")
    && EndsWith(entry.replacement, ">")
    && entry.source != entry.replacement
  }

  predicate Distinct(entries: seq<Rule>) {
    forall i, j :: 0 <= i < j < |entries| ==>
      entries[i].source != entries[j].source && entries[i].replacement != entries[j].replacement
  }

  predicate Acceptable(entries: seq<Rule>) {
    && entries != []
    && (forall i :: 0 <= i < |entries| ==> Reviewed(entries[i]))
    && Distinct(entries)
  }

  predicate SortedByLength(rules: seq<Rule>) {
    forall i, j :: 0 <= i < j < |rules| ==> Utf8Len(rules[i].source) >= Utf8Len(rules[j].source)
  }

  function InsertByLength(rule: Rule, rules: seq<Rule>): (r: seq<Rule>)
    requires SortedByLength(rules)
    ensures SortedByLength(r)
    ensures forall i :: 0 <= i < |r| ==> r[i] == rule || r[i] in rules
  {
    if rules == [] || Utf8Len(rule.source) >= Utf8Len(rules[0].source) then [rule] + rules
    else [rules[0]] + InsertByLength(rule, rules[1..])
  }

  lemma {:induction false} InsertedItems(rule: Rule, rules: seq<Rule>)
    requires SortedByLength(rules)
    ensures multiset(InsertByLength(rule, rules)) == multiset(rules) + multiset{rule}
  {
    if rules != [] {
      InsertedItems(rule, rules[1..]);
      assert rules == [rules[0]] + rules[1..];
    }
  }

  /** Stable sort by source length, longest first. */
  function SortByLength(entries: seq<Rule>): (rules: seq<Rule>)
    ensures SortedByLength(rules) && multiset(rules) == multiset(entries)
  {
    if entries == [] then []
    else
      assert entries == [entries[0]] + entries[1..];
      InsertedItems(entries[0], SortByLength(entries[1..]));
      InsertByLength(entries[0], SortByLength(entries[1..]))
  }

  // ----- synthetic names ---------------------------------------------------------------------

  type Key = (string, string)

  function SyntheticName(kind: string, n: nat): string {
    "<" + SyntheticInner(kind, n) + ">"
  }

  function SyntheticInner(kind: string, n: nat): string {
    "SYNTHETIC_" + Upper(kind) + "_" + PrintNat(n)
  }

  datatype Memo = Memo(synthetic: map<Key, string>, applied: nat)

  function SyntheticId(memo: Memo, kind: string, raw: string): (Memo, string) {
    if (kind, raw) in memo.synthetic then (memo, memo.synthetic[(kind, raw)])
    else
      var name := SyntheticName(kind, |memo.synthetic| + 1);
      (Memo(memo.synthetic[(kind, raw) := name], memo.applied + 1), name)
  }

  // ----- text ------------------------------------------------------------------------------

  /** A pattern cuts a text into stretches it does not match and matches. */
  datatype Piece = Plain(text: string) | Matched(text: string)

  datatype Pattern = Pattern(kind: string, pieces: string -> seq<Piece>)

  function Glue(pieces: seq<Piece>): string {
    if pieces == [] then "" else pieces[0].text + Glue(pieces[1..])
  }

  /** All a pattern matcher is trusted with: its pieces make up the text. */
  ghost predicate Faithful(patterns: seq<Pattern>) {
    forall i, text :: 0 <= i < |patterns| ==> Glue(patterns[i].pieces(text)) == text
  }

  function DigitCount(s: string): nat {
    if s == "" then 0 else (if IsDigit(s[0]) then 1 else 0) + DigitCount(s[1..])
  }

  /** A phone-like match with fewer than ten digits is left alone. */
  predicate Kept(kind: string, matched: string) {
    kind == "PHONE" && DigitCount(matched) < 10
  }

  function RedactPieces(memo: Memo, kind: string, pieces: seq<Piece>): (Memo, string)
    decreases |pieces|
  {
    if pieces == [] then (memo, "")
    else if pieces[0].Plain? || Kept(kind, pieces[0].text) then
      var (after, rest) := RedactPieces(memo, kind, pieces[1..]);
      (after, pieces[0].text + rest)
    else
      var (named, name) := SyntheticId(memo, kind, pieces[0].text);
      var (after, rest) := RedactPieces(named, kind, pieces[1..]);
      (after, name + rest)
  }

  function RedactPatterns(memo: Memo, patterns: seq<Pattern>, text: string): (Memo, string)
    decreases |patterns|
  {
    if patterns == [] then (memo, text)
    else
      var (after, redacted) := RedactPieces(memo, patterns[0].kind, patterns[0].pieces(text));
      RedactPatterns(after, patterns[1..], redacted)
  }

  datatype Config = Config(rules: seq<Rule>, patterns: seq<Pattern>)

  function RedactText(c: Config, memo: Memo, text: string): (Memo, string)
    requires Usable(c.rules)
  {
    RedactPatterns(memo.(applied := memo.applied + MatchesAll(c.rules, text)), c.patterns, ReplaceAll(c.rules, text))
  }

  // ----- documents ------------------------------------------------------------------------------

  const SECRET_PARTS: seq<string> :=
    ["password", "secret", "api_key", "access_token", "refresh_token", "authorization", "cookie", "credential"]

  const IDENTITY_FIELDS: seq<string> :=
    ["principal_id", "user_id", "username", "display_name", "email", "phone", "native_id", "recipient",
     "conversation_id", "assertion_id", "evidence_id", "extraction_run_id", "reviewer_id", "scope"]

  const REDACTED_SECRET: string := "<REDACTED_SECRET>"

  predicate IsSecretField(name: string) {
    exists i :: 0 <= i < |SECRET_PARTS| && Contains(Lower(name), SECRET_PARTS[i])
  }

  predicate IsIdentityField(name: string) {
    !IsSecretField(name) && Lower(name) in IDENTITY_FIELDS
  }

  /** The text an identity value is known by; anything but a string counts as "unknown". */
  function IdentityText(value: Json): string {
    if value.Str? then value.s else "unknown"
  }

  function RedactField(c: Config, memo: Memo, field: Field): (Memo, Field)
    requires Usable(c.rules)
    decreases field
  {
    if IsSecretField(field.name) then
      (memo.(applied := memo.applied + 1), Field(field.name, Str(REDACTED_SECRET)))
    else if IsIdentityField(field.name) then
      var (after, name) := SyntheticId(memo, "PERSON", IdentityText(field.value));
      (after, Field(field.name, Str(name)))
    else
      var (after, value) := RedactValue(c, memo, field.value);
      (after, Field(field.name, value))
  }

  function RedactFields(c: Config, memo: Memo, fields: seq<Field>): (Memo, seq<Field>)
    requires Usable(c.rules)
    decreases fields
  {
    if fields == [] then (memo, [])
    else
      var (m1, first) := RedactField(c, memo, fields[0]);
      var (m2, rest) := RedactFields(c, m1, fields[1..]);
      (m2, [first] + rest)
  }

  function RedactItems(c: Config, memo: Memo, items: seq<Json>): (Memo, seq<Json>)
    requires Usable(c.rules)
    decreases items
  {
    if items == [] then (memo, [])
    else
      var (m1, first) := RedactValue(c, memo, items[0]);
      var (m2, rest) := RedactItems(c, m1, items[1..]);
      (m2, [first] + rest)
  }

  function RedactValue(c: Config, memo: Memo, value: Json): (Memo, Json)
    requires Usable(c.rules)
    decreases value
  {
    match value
    case Obj(fields) =>
      var (after, redacted) := RedactFields(c, memo, fields);
      (after, Obj(redacted))
    case Arr(items) =>
      var (after, redacted) := RedactItems(c, memo, items);
      (after, Arr(redacted))
    case Str(text) =>
      var (after, redacted) := RedactText(c, memo, text);
      (after, Str(redacted))
    case _ => (memo, value)
  }
}
