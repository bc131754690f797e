/**
 The redactor object: its pseudonym table and counter grow as it rewrites texts
 and documents in place. Each method is proved equal to its function in
 `Redaction`.
*/
module Redactor {
  import opened Wrappers
  import opened Text
  import opened Json
  import opened Replacement
  import opened Redaction

  class Redactor {
    const config: Config
    var synthetic: map<Key, string>
    var applied: nat

    ghost function State(): Memo
      reads this
    {
      Memo(synthetic, applied)
    }

    /** For an accepted map only; `Create` checks it. */
    constructor (entries: seq<Rule>, patterns: seq<Pattern>)
      ensures config == Config(SortByLength(entries), patterns) && State() == Memo(map[], 0)
    {
      config := Config(SortByLength(entries), patterns);
      synthetic, applied := map[], 0;
    }

    static method Create(entries: seq<Rule>, patterns: seq<Pattern>) returns (r: Option<Redactor>)
      ensures r.Some? <==> Acceptable(entries)
      ensures r.Some? ==>
        fresh(r.value) && r.value.config == Config(SortByLength(entries), patterns) && r.value.State() == Memo(map[], 0)
    {
      if entries == [] {
        return None;
      }
      var sources: set<string>, replacements: set<string> := {}, {};
      for i := 0 to |entries|
        invariant forall k :: 0 <= k < i ==> Reviewed(entries[k])
        invariant Distinct(entries[..i])
        invariant sources == set k | 0 <= k < i :: entries[k].source
        invariant replacements == set k | 0 <= k < i :: entries[k].replacement
      {
        var entry := entries[i];
        if !Reviewed(entry) || entry.source in sources || entry.replacement in replacements {
          return None;
        }
        sources, replacements := sources + {entry.source}, replacements + {entry.replacement};
        assert entries[..i + 1] == entries[..i] + [entry];
      }
      assert entries[..|entries|] == entries;
      var redactor := new Redactor(entries, patterns);
      r := Some(redactor);
    }

    method SyntheticId(kind: string, raw: string) returns (name: string)
      modifies this
      ensures (State(), name) == Redaction.SyntheticId(old(State()), kind, raw)
    {
      if (kind, raw) in synthetic {
        return synthetic[(kind, raw)];
      }
      name := SyntheticName(kind, |synthetic| + 1);
      synthetic := synthetic[(kind, raw) := name];
      applied := applied + 1;
    }

    method RedactText(input: string) returns (text: string)
      requires Usable(config.rules)
      modifies this
      ensures (State(), text) == Redaction.RedactText(config, old(State()), input)
    {
      text := input;
      var left := config.rules;
      while left != []
        invariant Usable(left) && synthetic == old(synthetic)
        invariant ReplaceAll(left, text) == ReplaceAll(config.rules, input)
        invariant applied + MatchesAll(left, text) == old(applied) + MatchesAll(config.rules, input)
        decreases |left|
      {
        var count := Matches(text, left[0].source);
        if count > 0 {
          text := Replace(text, left[0].source, left[0].replacement);
          applied := applied + count;
        } else {
          NoMatchNoChange(text, left[0].source, left[0].replacement);
        }
        left := left[1..];
      }
      var patterns := config.patterns;
      ghost var start, redacted := State(), text;
      while patterns != []
        invariant RedactPatterns(State(), patterns, text) == RedactPatterns(start, config.patterns, redacted)
        decreases |patterns|
      {
        text := RedactMatches(patterns[0], text);
        patterns := patterns[1..];
      }
    }

    method RedactMatches(pattern: Pattern, text: string) returns (redacted: string)
      modifies this
      ensures (State(), redacted) == RedactPieces(old(State()), pattern.kind, pattern.pieces(text))
    {
      redacted := "";
      var pieces := pattern.pieces(text);
      ghost var start, all := State(), pieces;
      while pieces != []
        invariant RedactPieces(start, pattern.kind, all).0 == RedactPieces(State(), pattern.kind, pieces).0
        invariant RedactPieces(start, pattern.kind, all).1 == redacted + RedactPieces(State(), pattern.kind, pieces).1
        decreases |pieces|
      {
        var piece := pieces[0];
        if piece.Plain? || Kept(pattern.kind, piece.text) {
          redacted := redacted + piece.text;
        } else {
          var name := SyntheticId(pattern.kind, piece.text);
          redacted := redacted + name;
        }
        pieces := pieces[1..];
      }
      assert redacted + "" == redacted;
    }

    method RedactValue(value: Json) returns (redacted: Json)
      requires Usable(config.rules)
      modifies this
      ensures (State(), redacted) == Redaction.RedactValue(config, old(State()), value)
      decreases value, 1
    {
      match value {
        case Obj(fields) =>
          var done := RedactObject(fields);
          redacted := Obj(done);
        case Arr(items) =>
          var done := RedactArray(items);
          redacted := Arr(done);
        case Str(text) =>
          var line := RedactText(text);
          redacted := Str(line);
        case _ => redacted := value;
      }
    }

    method RedactObject(fields: seq<Field>) returns (done: seq<Field>)
      requires Usable(config.rules)
      modifies this
      ensures (State(), done) == RedactFields(config, old(State()), fields)
      decreases fields, 0
    {
      done := [];
      var left := fields;
      while left != []
        invariant forall i :: 0 <= i < |left| ==> left[i] in fields
        invariant RedactFields(config, old(State()), fields).0 == RedactFields(config, State(), left).0
        invariant RedactFields(config, old(State()), fields).1 == done + RedactFields(config, State(), left).1
        decreases |left|
      {
        var field := RedactField(left[0]);
        done := done + [field];
        left := left[1..];
      }
      assert done + [] == done;
    }

    method RedactField(field: Field) returns (done: Field)
      requires Usable(config.rules)
      modifies this
      ensures (State(), done) == Redaction.RedactField(config, old(State()), field)
      decreases field, 0
    {
      var nested;
      if IsSecretField(field.name) {
        nested := Str(REDACTED_SECRET);
        applied := applied + 1;
      } else if IsIdentityField(field.name) {
        var name := SyntheticId("PERSON", IdentityText(field.value));
        nested := Str(name);
      } else {
        nested := RedactValue(field.value);
      }
      done := Field(field.name, nested);
    }

    method RedactArray(items: seq<Json>) returns (done: seq<Json>)
      requires Usable(config.rules)
      modifies this
      ensures (State(), done) == RedactItems(config, old(State()), items)
      decreases items, 0
    {
      done := [];
      var left := items;
      while left != []
        invariant forall i :: 0 <= i < |left| ==> left[i] in items
        invariant RedactItems(config, old(State()), items).0 == RedactItems(config, State(), left).0
        invariant RedactItems(config, old(State()), items).1 == done + RedactItems(config, State(), left).1
        decreases |left|
      {
        var item := RedactValue(left[0]);
        done := done + [item];
        left := left[1..];
      }
      assert done + [] == done;
    }
  }

  lemma {:induction false} NoMatchNoChange(text: string, source: string, replacement: string)
    requires source != "" && Matches(text, source) == 0
    ensures Replace(text, source, replacement) == text
  {
    if text != "" {
      NoMatchNoChange(text[1..], source, replacement);
    }
  }
}
