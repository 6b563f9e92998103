/** Redaction of one string in two passes, and of a map of fields. */
module Redact {
  import opened CardPass
  import opened EmailPass

  datatype Field = Text(s: string) | Other(value: int)

  const SENSITIVE_KEYS := {"password", "secret", "token", "authorization", "api_key", "apikey", "credit_card", "ssn",
      "cvv"}

  function Redacted(s: string): string {
    HideCards(MaskEmails(s))
  }

  method RedactString(text: string) returns (s: string)
    ensures s == Redacted(text)
  {
    s := ReplaceEmails(text);
    ScannerIsCardRegex(s);
    s := ScanCards(s);
  }

  /** Whatever the text, no redacted string contains a card run; redacting cards again changes nothing. */
  lemma RedactedHasNoCards(s: string)
    ensures Clean(Redacted(s))
    ensures HideCards(Redacted(s)) == Redacted(s)
  {
    CardPassIsFinal(MaskEmails(s));
  }

  function RedactedField(lower: string -> string, key: string, v: Field): Field {
    if lower(key) in SENSITIVE_KEYS then Text(REDACTED)
    else match v case Text(s) => Text(Redacted(s)) case Other(_) => v
  }

  /** The nine names, in lower case. */
  predicate IsSecret(name: string) {
    || name == "password" || name == "secret" || name == "token" || name == "authorization"
    || name == "api_key" || name == "apikey" || name == "credit_card" || name == "ssn" || name == "cvv"
  }

  /** A secret name hides the whole value, any other name lets everything but text through as it is. */
  predicate AsPromised(lower: string -> string, key: string, v: Field, r: Field) {
    && (IsSecret(lower(key)) ==> r == Text("[REDACTED]"))
    && (!IsSecret(lower(key)) && v.Other? ==> r == v)
    && (!IsSecret(lower(key)) && v.Text? ==> r == Text(Redacted(v.s)))
  }

  lemma FieldRedacted(lower: string -> string, key: string, v: Field)
    ensures AsPromised(lower, key, v, RedactedField(lower, key, v))
  {
    assert lower(key) in SENSITIVE_KEYS <==> IsSecret(lower(key));
  }

  function RedactedFields(lower: string -> string, fields: map<string, Field>): map<string, Field> {
    map k | k in fields :: RedactedField(lower, k, fields[k])
  }

  /** lower stands for strings.ToLower. */
  method RedactFields(fields: map<string, Field>, lower: string -> string) returns (result: map<string, Field>)
    ensures result == RedactedFields(lower, fields)
    ensures result.Keys == fields.Keys
    ensures forall k :: k in fields ==> AsPromised(lower, k, fields[k], result[k])
  {
    result := map[];
    var left := fields.Keys;
    while left != {}
      invariant left <= fields.Keys
      invariant result.Keys == fields.Keys - left
      invariant forall k :: k in result ==> result[k] == RedactedField(lower, k, fields[k])
      decreases left
    {
      var k :| k in left;
      left := left - {k};
      if lower(k) in SENSITIVE_KEYS {
        result := result[k := Text(REDACTED)];
        continue;
      }
      match fields[k]
      case Text(s) =>
        var r := RedactString(s);
        result := result[k := Text(r)];
      case Other(_) =>
        result := result[k := fields[k]];
    }
    forall k | k in fields ensures AsPromised(lower, k, fields[k], result[k]) { FieldRedacted(lower, k, fields[k]); }
  }

  /** No text of a redacted map contains a card run, and sensitive keys keep nothing of their value. */
  lemma RedactedFieldIsSafe(lower: string -> string, key: string, v: Field)
    ensures RedactedField(lower, key, v).Text? ==> Clean(RedactedField(lower, key, v).s)
    ensures lower(key) in SENSITIVE_KEYS ==> forall w :: RedactedField(lower, key, w) == RedactedField(lower, key, v)
  {
    if v.Text? { RedactedHasNoCards(v.s); }
    assert Clean("") by { assert forall i: nat, j: nat :: !IsCardRun("", i, j); }
    CleanRedacted("");
    assert REDACTED + "" == REDACTED;
  }

  ghost predicate SameButSecrets(lower: string -> string, f: map<string, Field>, g: map<string, Field>) {
    f.Keys == g.Keys && forall k :: k in f && lower(k) !in SENSITIVE_KEYS ==> f[k] == g[k]
  }

  /** Maps that differ only in what their sensitive keys hold cannot be told apart after redaction. */
  lemma SecretsDoNotShow(lower: string -> string, f: map<string, Field>, g: map<string, Field>)
    requires SameButSecrets(lower, f, g)
    ensures RedactedFields(lower, f) == RedactedFields(lower, g)
  {
    var a, b := RedactedFields(lower, f), RedactedFields(lower, g);
    assert a.Keys == f.Keys && b.Keys == g.Keys;
    forall k | k in a ensures a[k] == b[k] {
      if lower(k) !in SENSITIVE_KEYS { assert f[k] == g[k]; }
    }
  }
}
