/** The JSON values and text operations the build brief works with. Letters, digits and white space are
    the ASCII ones. */
module BriefText {
  import opened Wrappers

  /** A JSON value: null, a string, a finite number, a list, or anything else. `shown` is what Python's
      `str` gives for it. */
  datatype Value =
    | Null
    | Text(text: string)
    | Number(truthy: bool, shown: string)
    | Items(items: seq<Value>, shown: string)
    | Other(truthy: bool, shown: string)

  /** The keys of a record; any key the contract does not speak about is an additional one. */
  datatype Field = Id | Name | Children | KindField | Participants | Unresolved | Conformance | Statement | TextField |
    RiskField | Disposition | Source | Rationale | Migration | LegacyDisposition | Role | Why | Quantity | Unit | Drives |
    Clearance | Description | Additional(name: string)

  type Record = map<Field, Value>

  predicate Truthy(v: Value) {
    match v
    case Null => false
    case Text(s) => s != ""
    case Number(truthy, _) => truthy
    case Items(items, _) => items != []
    case Other(truthy, _) => truthy
  }

  function Shown(v: Value): string {
    match v
    case Null => "None"
    case Text(s) => s
    case Number(_, shown) => shown
    case Items(_, shown) => shown
    case Other(_, shown) => shown
  }

  /** `a or b`. */
  function Or(a: Value, b: Value): Value { if Truthy(a) then a else b }

  /** `record.get(key)`. */
  function Get(record: Record, key: Field): Value { if key in record then record[key] else Null }

  /** `str(v or "")`. */
  function TextOf(v: Value): string { if Truthy(v) then Shown(v) else "" }

  predicate IsSpace(c: char) { c == ' ' || '\t' <= c <= '\r' || 28 as char <= c <= 31 as char }

  predicate Trimmed(s: string) { s == "" || (!IsSpace(s[0]) && !IsSpace(s[|s| - 1])) }

  function TrimLeft(s: string): (r: string)
    ensures |r| <= |s| && (r == "" || !IsSpace(r[0]))
    ensures s == "" || !IsSpace(s[0]) ==> r == s
  {
    if s != "" && IsSpace(s[0]) then TrimLeft(s[1..]) else s
  }

  function TrimRight(s: string): (r: string)
    ensures r <= s && (r == "" || !IsSpace(r[|r| - 1]))
    ensures s == "" || !IsSpace(s[|s| - 1]) ==> r == s
  {
    if s != "" && IsSpace(s[|s| - 1]) then TrimRight(s[..|s| - 1]) else s
  }

  /** `s.strip()`. */
  function Strip(s: string): (r: string)
    ensures Trimmed(r) && |r| <= |s| && (Trimmed(s) ==> r == s)
  {
    TrimRight(TrimLeft(s))
  }

  predicate Blank(s: string) { Strip(s) == "" }

  function LowerChar(c: char): char { if 'A' <= c <= 'Z' then (c as int + 32) as char else c }

  /** `s.lower()`. */
  function Lower(s: string): (r: string)
    ensures |r| == |s| && forall i :: 0 <= i < |s| ==> r[i] == LowerChar(s[i])
  {
    seq(|s|, i requires 0 <= i < |s| => LowerChar(s[i]))
  }

  lemma LowerTrimmed(s: string)
    ensures Trimmed(s) ==> Trimmed(Lower(s))
    ensures Lower(Lower(s)) == Lower(s)
  {
  }

  /** `_capped_text`. */
  function CappedText(v: Value, cap: nat): Result<string> {
    var text := Strip(TextOf(v));
    if |text| > cap then Rejected else Ok(text)
  }

  /** A text that `_capped_text` returns as it is. */
  predicate Capped(v: Value, cap: nat) { v.Text? && Trimmed(v.text) && |v.text| <= cap }

  lemma CappedAgain(v: Value, cap: nat)
    ensures CappedText(v, cap).Ok? ==> Capped(Text(CappedText(v, cap).value), cap)
    ensures Capped(v, cap) ==> CappedText(v, cap) == Ok(v.text)
  {
  }
}
