/** `_stable_id` of build_brief.py: a readable id made from a name, with a number behind it when taken. */
module StableIds {
  import opened BriefText
  import Sets

  predicate Alnum(c: char) { 'a' <= c <= 'z' || 'A' <= c <= 'Z' || '0' <= c <= '9' }

  function SlugChar(c: char): char { if Alnum(c) then LowerChar(c) else '-' }

  predicate SlugText(s: string) { forall i :: 0 <= i < |s| ==> s[i] == '-' || (Alnum(s[i]) && LowerChar(s[i]) == s[i]) }

  function Slugged(s: string): (r: string)
    ensures SlugText(r)
  {
    seq(|s|, i requires 0 <= i < |s| => SlugChar(s[i]))
  }

  function DropDashes(s: string): (r: string)
    ensures SlugText(s) ==> SlugText(r)
  {
    if s != "" && s[0] == '-' then DropDashes(s[1..])
    else if s != "" && s[|s| - 1] == '-' then DropDashes(s[..|s| - 1])
    else s
  }

  /** The id without a number: the slug of the value, or the fallback when nothing of it is left. */
  function Base(value: string, fallback: string): (r: string)
    requires fallback != "" && SlugText(fallback)
    ensures r != "" && SlugText(r)
  {
    var slug := DropDashes(Slugged(if value == "" then fallback else value));
    if slug == "" then fallback else slug
  }

  function Digit(d: nat): char
    requires d < 10
  {
    (d + 48) as char
  }

  function Decimal(n: nat): (s: string)
    ensures s != "" && SlugText(s)
  {
    if n < 10 then [Digit(n)] else Decimal(n / 10) + [Digit(n % 10)]
  }

  lemma {:induction false} DecimalInjective(m: nat, n: nat)
    requires Decimal(m) == Decimal(n)
    ensures m == n
  {
    var s, t := Decimal(m), Decimal(n);
    assert s[|s| - 1] == t[|t| - 1];
    assert s[..|s| - 1] == t[..|t| - 1];
    if m >= 10 && n >= 10 {
      assert s[..|s| - 1] == Decimal(m / 10) && t[..|t| - 1] == Decimal(n / 10);
      DecimalInjective(m / 10, n / 10);
    }
  }

  /** The k-th name tried: the base itself, then base-2, base-3 and so on. */
  function Candidate(base: string, k: nat): (s: string)
    ensures SlugText(base) ==> SlugText(s)
    ensures base != "" ==> s != ""
  {
    if k <= 1 then base else base + "-" + Decimal(k)
  }

  lemma CandidatesDiffer(base: string, j: nat, k: nat)
    requires 1 <= j < k
    ensures Candidate(base, j) != Candidate(base, k)
  {
    if j > 1 && Candidate(base, j) == Candidate(base, k) {
      var n := |base| + 1;
      assert (base + "-" + Decimal(j))[n..] == Decimal(j);
      assert (base + "-" + Decimal(k))[n..] == Decimal(k);
      DecimalInjective(j, k);
    }
  }

  predicate Taken(base: string, used: set<string>, k: nat) { forall j: nat :: 1 <= j < k ==> Candidate(base, j) in used }

  /** The id is the first candidate that is still free. */
  ghost predicate FirstFree(base: string, used: set<string>, id: string) {
    id !in used && exists k: nat :: k >= 1 && id == Candidate(base, k) && Taken(base, used, k)
  }

  lemma FirstFreeUnique(base: string, used: set<string>, a: string, b: string)
    requires FirstFree(base, used, a) && FirstFree(base, used, b)
    ensures a == b
  {
  }

  /** `_stable_id`. Only finitely many ids are taken, so the search ends. */
  method StableId(value: string, used: set<string>, fallback: string) returns (id: string)
    requires fallback != "" && SlugText(fallback)
    ensures FirstFree(Base(value, fallback), used, id)
    ensures id != "" && SlugText(id)
  {
    var base := Base(value, fallback);
    var suffix: nat := 2;
    ghost var tried: set<string> := {};
    id := base;
    while id in used
      invariant id == Candidate(base, suffix - 1) && Taken(base, used, suffix - 1) && suffix >= 2
      invariant tried <= used && |tried| == suffix - 2
      invariant forall s :: s in tried ==> exists j: nat :: 1 <= j < suffix - 1 && s == Candidate(base, j)
      decreases |used| - |tried|
    {
      Fewer(tried, used, id, base, suffix - 1);
      tried := tried + {id};
      id := base + "-" + Decimal(suffix);
      suffix := suffix + 1;
    }
  }

  lemma Fewer(tried: set<string>, used: set<string>, id: string, base: string, k: nat)
    requires tried <= used && id in used && k >= 1 && id == Candidate(base, k)
    requires forall s :: s in tried ==> exists j: nat :: 1 <= j < k && s == Candidate(base, j)
    ensures id !in tried && |tried + {id}| == |tried| + 1 && |tried| < |used|
  {
    if id in tried {
      var j: nat :| 1 <= j < k && id == Candidate(base, j);
      CandidatesDiffer(base, j, k);
    }
    Sets.SubsetSize(tried + {id}, used);
  }

  lemma FirstFreeExists(value: string, used: set<string>, fallback: string)
    requires fallback != "" && SlugText(fallback)
    ensures exists id :: FirstFree(Base(value, fallback), used, id)
  {
    var base := Base(value, fallback);
    FreeFrom(base, used, {}, 1);
  }

  lemma {:induction false} FreeFrom(base: string, used: set<string>, tried: set<string>, k: nat)
    requires k >= 1 && Taken(base, used, k) && tried <= used
    requires forall s :: s in tried ==> exists j: nat :: 1 <= j < k && s == Candidate(base, j)
    ensures exists id :: FirstFree(base, used, id)
    decreases |used| - |tried|
  {
    var id := Candidate(base, k);
    if id in used {
      Fewer(tried, used, id, base, k);
      FreeFrom(base, used, tried + {id}, k + 1);
    } else {
      assert FirstFree(base, used, id);
    }
  }

  /** The id `_stable_id` gives. */
  ghost function IdFor(value: string, used: set<string>, fallback: string): (id: string)
    requires fallback != "" && SlugText(fallback)
    ensures FirstFree(Base(value, fallback), used, id) && id != "" && SlugText(id)
  {
    FirstFreeExists(value, used, fallback);
    var id :| FirstFree(Base(value, fallback), used, id);
    id
  }

  // ---------------------------------------------------------------- what an id looks like

  /** The text an id is made of. */
  function Given(value: string, fallback: string): string { if value == "" then fallback else value }

  /** The letters and digits of the text lie between `first` and `last`, both included. */
  predicate Spans(text: string, first: nat, last: nat) {
    && first <= last < |text| && Alnum(text[first]) && Alnum(text[last])
    && (forall i :: 0 <= i < first ==> !Alnum(text[i])) && (forall i :: last < i < |text| ==> !Alnum(text[i]))
  }

  /** The id reads like the text from its first letter or digit to its last, in small letters, with a dash for everything
      else. */
  predicate ReadsLike(id: string, text: string, first: nat, last: nat)
    requires first <= last < |text|
  {
    && |id| == last - first + 1
    && forall k :: 0 <= k < |id| ==> id[k] == if Alnum(text[first + k]) then LowerChar(text[first + k]) else '-'
  }

  /** An id without a number reads like its name; a name without letters and digits gives the fallback. */
  lemma BaseMeaning(value: string, fallback: string)
    requires fallback != "" && SlugText(fallback)
    ensures forall first: nat, last: nat :: Spans(Given(value, fallback), first, last) ==>
              ReadsLike(Base(value, fallback), Given(value, fallback), first, last)
    ensures (forall i :: 0 <= i < |Given(value, fallback)| ==> !Alnum(Given(value, fallback)[i])) ==> Base(value, fallback) == fallback
  {
    var text := Given(value, fallback);
    forall first: nat, last: nat | Spans(text, first, last)
      ensures ReadsLike(Base(value, fallback), text, first, last)
    {
      DropToSpan(Slugged(text), first, last);
    }
    if forall i :: 0 <= i < |text| ==> !Alnum(text[i]) { DropAll(Slugged(text)); }
  }

  lemma {:induction false} DropToSpan(s: string, first: nat, last: nat)
    requires first <= last < |s| && s[first] != '-' && s[last] != '-'
    requires (forall i :: 0 <= i < first ==> s[i] == '-') && (forall i :: last < i < |s| ==> s[i] == '-')
    ensures DropDashes(s) == s[first..last + 1]
    decreases |s|
  {
    if first > 0 {
      DropToSpan(s[1..], first - 1, last - 1);
      assert s[1..][first - 1..last] == s[first..last + 1];
    } else if last < |s| - 1 {
      DropToSpan(s[..|s| - 1], first, last);
      assert s[..|s| - 1][first..last + 1] == s[first..last + 1];
    } else {
      assert s[first..last + 1] == s;
    }
  }

  lemma {:induction false} DropAll(s: string)
    requires forall i :: 0 <= i < |s| ==> s[i] == '-'
    ensures DropDashes(s) == ""
    decreases |s|
  {
    if s != "" { DropAll(s[1..]); }
  }

  /** Reading digits in base ten. */
  function Read(s: string): int {
    if s == "" then 0 else 10 * Read(s[..|s| - 1]) + (s[|s| - 1] as int - '0' as int)
  }

  lemma {:induction false} DecimalReads(n: nat)
    ensures Read(Decimal(n)) == n
    ensures forall i :: 0 <= i < |Decimal(n)| ==> '0' <= Decimal(n)[i] <= '9'
    ensures n > 0 ==> Decimal(n)[0] != '0'
  {
    var s := Decimal(n);
    if n >= 10 {
      DecimalReads(n / 10);
      assert s[..|s| - 1] == Decimal(n / 10);
    } else {
      assert s[..0] == "";
    }
  }

  /** The id is the one its name reads like, or that with a number behind a dash: the least number from two on that makes it
      a free one, and none when the plain one is free. */
  lemma IdMeaning(value: string, used: set<string>, fallback: string, id: string)
    requires fallback != "" && SlugText(fallback) && FirstFree(Base(value, fallback), used, id)
    ensures var base := Base(value, fallback);
            && id !in used
            && (if base !in used then id == base
                else exists k: nat :: k >= 2 && id == base + "-" + Decimal(k)
                                      && forall j: nat :: 2 <= j < k ==> base + "-" + Decimal(j) in used)
  {
    var base := Base(value, fallback);
    var k: nat :| k >= 1 && id == Candidate(base, k) && Taken(base, used, k);
    hide Base;
    if k == 1 {
      assert id == base;
    } else {
      assert Candidate(base, 1) in used;
      forall j: nat | 2 <= j < k
        ensures base + "-" + Decimal(j) in used
      {
        assert Candidate(base, j) in used;
      }
    }
  }
}
