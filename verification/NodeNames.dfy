/** The names a function conversion gives out: NodeNameMapping in tensorflow/c/c_api_function.cc. */
module NodeNames {
  import opened Collections
  import opened Words

  // ---- Decimal numbers in names ----

  function Digit(d: nat): char
    requires d < 10
  {
    ['0', '1', '2', '3', '4', '5', '6', '7', '8', '9'][d]
  }

  function Decimal(n: nat): (s: string)
    ensures |s| >= 1 && (|s| == 1 <==> n < 10)
    ensures forall k :: 0 <= k < |s| ==> '0' <= s[k] <= '9'
  {
    if n < 10 then [Digit(n)] else Decimal(n / 10) + [Digit(n % 10)]
  }

  lemma {:induction false} LastDigit(n: nat)
    ensures var s := Decimal(n);
      && |s| > 0 && s[|s| - 1] == Digit(n % 10)
      && (if n < 10 then |s| == 1 else |s| > 1 && s[..|s| - 1] == Decimal(n / 10))
  {
  }

  lemma {:induction false} SameDigit(d: nat, e: nat)
    requires d < 10 && e < 10
    ensures Digit(d) == Digit(e) ==> d == e
  {
  }

  lemma {:induction false} DecimalInjective(m: nat, n: nat)
    requires Decimal(m) == Decimal(n)
    ensures m == n
  {
    hide Decimal, Digit;
    LastDigit(m);
    LastDigit(n);
    SameDigit(m % 10, n % 10);
    if m >= 10 {
      DecimalInjective(m / 10, n / 10);
    }
  }

  lemma {:induction false} DigitValue(d: nat)
    requires d < 10
    ensures Digit(d) as int - '0' as int == d
  {
  }

  function Power10(k: nat): (p: nat)
    ensures p > 0
  {
    if k == 0 then 1 else 10 * Power10(k - 1)
  }

  /** A number is written with its digits in base 10, highest first and without leading zeros. */
  lemma {:induction false} DecimalBounds(n: nat)
    ensures n < Power10(|Decimal(n)|) && (|Decimal(n)| > 1 ==> Power10(|Decimal(n)| - 1) <= n)
  {
    LastDigit(n);
    assert Power10(0) == 1 && Power10(1) == 10;
    if n >= 10 {
      DecimalBounds(n / 10);
      var digits := |Decimal(n / 10)|;
      assert |Decimal(n)| == digits + 1;
      hide Decimal;
      assert Power10(digits + 1) == 10 * Power10(digits);
      assert digits > 1 ==> Power10(digits) == 10 * Power10(digits - 1);
    }
  }

  lemma {:induction false} DecimalDigitAt(n: nat, k: nat)
    requires k < |Decimal(n)|
    ensures n < Power10(|Decimal(n)|) && (|Decimal(n)| > 1 ==> Power10(|Decimal(n)| - 1) <= n)
    ensures Decimal(n)[|Decimal(n)| - 1 - k] as int - '0' as int == n / Power10(k) % 10
  {
    hide Decimal, Digit;
    DecimalBounds(n);
    LastDigit(n);
    if k == 0 {
      assert Power10(0) == 1;
      hide Power10;
      DigitValue(n % 10);
    } else {
      assert Power10(k) == 10 * Power10(k - 1);
      hide Power10;
      var s, higher := Decimal(n), Decimal(n / 10);
      assert s[|s| - 1 - k] == higher[|higher| - 1 - (k - 1)];
      DecimalDigitAt(n / 10, k - 1);
      DivideTwice(n, 10, Power10(k - 1));
    }
  }

  /** The flat name "<node>:<index>" of a tensor in a graph. */
  function Key(node: string, index: nat): string {
    node + ":" + Decimal(index)
  }

  /** Two strings with the same part before their first separator agree in both parts. */
  lemma {:induction false} SplitAtSeparator(a: string, b: string, x: string, y: string, sep: char)
    requires sep !in a && sep !in b && a + [sep] + x == b + [sep] + y
    ensures a == b && x == y
  {
    var s := a + [sep] + x;
    assert s == b + [sep] + y;
    assert s[|a|] == sep && s[|b|] == sep;
    assert forall k :: 0 <= k < |a| ==> s[k] == a[k] && a[k] in a;
    assert forall k :: 0 <= k < |b| ==> s[k] == b[k] && b[k] in b;
    assert a == s[..|a|] && b == s[..|b|];
    assert x == s[|a| + 1..] && y == s[|b| + 1..];
  }

  lemma {:induction false} KeyInjective(a: string, i: nat, b: string, j: nat)
    requires ':' !in a && ':' !in b && Key(a, i) == Key(b, j)
    ensures a == b && i == j
  {
    SplitAtSeparator(a, b, Decimal(i), Decimal(j), ':');
    DecimalInjective(i, j);
  }

  // ---- Normalized names ----

  predicate IsLower(c: char) { 'a' <= c <= 'z' }
  predicate IsUpper(c: char) { 'A' <= c <= 'Z' }
  predicate IsDigit(c: char) { '0' <= c <= '9' }
  predicate IsAlpha(c: char) { IsLower(c) || IsUpper(c) }
  predicate IsAlnum(c: char) { IsAlpha(c) || IsDigit(c) }

  function ToLower(c: char): char {
    if IsUpper(c) then (c as int - 'A' as int + 'a' as int) as char else c
  }

  predicate IsArgChar(c: char) { IsLower(c) || IsDigit(c) || c == '_' }

  /** The pattern [a-z][a-z0-9_]* of argument names. */
  predicate IsArgName(s: string) {
    |s| > 0 && IsLower(s[0]) && forall k :: 0 <= k < |s| ==> IsArgChar(s[k])
  }

  function CleanChar(c: char): char {
    if IsAlnum(c) then ToLower(c) else '_'
  }

  function FromFirstLetter(s: string): string {
    if s == "" then "" else if IsAlpha(CleanChar(s[0])) then s else FromFirstLetter(s[1..])
  }

  /** Lower-case letters and digits kept, everything else an underscore, from the first letter on;
      "unknown" when there is no letter. */
  function Normalized(name: string): string {
    var s := FromFirstLetter(name);
    if s == "" then "unknown" else seq(|s|, k requires 0 <= k < |s| => CleanChar(s[k]))
  }

  lemma {:induction false} FromFirstLetterStarts(s: string)
    ensures FromFirstLetter(s) != "" ==> IsLower(CleanChar(FromFirstLetter(s)[0]))
  {
    if s != "" && !IsAlpha(CleanChar(s[0])) {
      FromFirstLetterStarts(s[1..]);
    }
  }

  /** Normalizing gives an argument name, and keeps exactly the names that are one already. */
  lemma {:induction false} NormalizedIsArgName(name: string)
    ensures IsArgName(Normalized(name))
    ensures Normalized(name) == name <==> IsArgName(name)
  {
    FromFirstLetterStarts(name);
    if IsArgName(name) {
      assert FromFirstLetter(name) == name;
    }
  }

  const UPPER := "ABCDEFGHIJKLMNOPQRSTUVWXYZ"
  const LOWER := "abcdefghijklmnopqrstuvwxyz"

  predicate IsLetter(c: char) { c in UPPER || c in LOWER }

  /** c becomes d: capital letters turn into the small ones, small letters and digits stay. */
  ghost predicate Becomes(c: char, d: char) {
    && (c in LOWER || c in "0123456789" ==> d == c)
    && (c !in LOWER && c !in "0123456789" && c !in UPPER ==> d == '_')
    && (forall i :: 0 <= i < 26 && c == UPPER[i] ==> d == LOWER[i])
  }

  lemma {:induction false} LetterAt()
    ensures forall i :: 0 <= i < 26 ==> UPPER[i] as int == 'A' as int + i && LOWER[i] as int == 'a' as int + i
  {
  }

  lemma {:induction false} LetterTables(c: char)
    ensures c in UPPER <==> 'A' <= c <= 'Z'
    ensures c in LOWER <==> 'a' <= c <= 'z'
    ensures c in "0123456789" <==> '0' <= c <= '9'
    ensures 'A' <= c <= 'Z' ==> UPPER[c as int - 'A' as int] == c
    ensures forall i :: 0 <= i < 26 ==> UPPER[i] as int == 'A' as int + i && LOWER[i] as int == 'a' as int + i
  {
    LetterAt();
    assert 'a' <= c <= 'z' ==> LOWER[c as int - 'a' as int] == c;
    assert '0' <= c <= '9' ==> "0123456789"[c as int - '0' as int] == c;
  }

  lemma {:induction false} CleanCharBecomes(c: char)
    ensures Becomes(c, CleanChar(c)) && (IsAlpha(CleanChar(c)) <==> IsLetter(c))
  {
    LetterTables(c);
    forall i | 0 <= i < 26 && c == UPPER[i] ensures CleanChar(c) == LOWER[i] {
      assert LOWER[i] as int == c as int - 'A' as int + 'a' as int;
    }
  }

  lemma {:induction false} FirstLetterAt(s: string) returns (p: nat)
    ensures p <= |s| && FromFirstLetter(s) == s[p..] && (forall k :: 0 <= k < p ==> !IsLetter(s[k]))
    ensures p < |s| ==> IsLetter(s[p])
  {
    hide CleanChar, IsLetter;
    if s == "" {
      p := 0;
    } else {
      CleanCharBecomes(s[0]);
      if IsAlpha(CleanChar(s[0])) {
        p := 0;
      } else {
        var q := FirstLetterAt(s[1..]);
        p := q + 1;
      }
    }
  }

  /** The normal form, character by character, from the first letter on. */
  lemma {:induction false} NormalizedForm(name: string) returns (p: nat)
    ensures p <= |name| && (forall k :: 0 <= k < p ==> !IsLetter(name[k])) && (p < |name| ==> IsLetter(name[p]))
    ensures p == |name| ==> Normalized(name) == "unknown"
    ensures p < |name| ==>
              && |Normalized(name)| == |name| - p
              && (forall k :: 0 <= k < |name| - p ==> Becomes(name[p + k], Normalized(name)[k]))
  {
    p := FirstLetterAt(name);
    hide CleanChar, IsLetter, FromFirstLetter, Becomes;
    if p < |name| {
      assert name[p..] != "" && |Normalized(name)| == |name| - p;
      forall k | 0 <= k < |name| - p ensures Becomes(name[p + k], Normalized(name)[k]) {
        CleanCharBecomes(name[p + k]);
      }
    }
  }

  /** Lines 80-103: rewrite the characters in place, then cut at the first letter. */
  method Normalize(name: string) returns (r: string)
    ensures r == Normalized(name)
  {
    if name == "" {
      return "unknown";
    }
    var n := |name|;
    var chars := new char[n](k requires 0 <= k < n => name[k]);
    for i := 0 to n
      invariant forall k :: 0 <= k < i ==> chars[k] == CleanChar(name[k])
      invariant forall k :: i <= k < n ==> chars[k] == name[k]
    {
      var c := chars[i];
      if IsAlnum(c) {
        if IsUpper(c) {
          chars[i] := ToLower(c);
        }
      } else {
        chars[i] := '_';
      }
    }
    var i := 0;
    assert name[0..] == name;
    while i < n && !IsAlpha(chars[i])
      invariant 0 <= i <= n
      invariant forall k :: 0 <= k < n ==> chars[k] == CleanChar(name[k])
      invariant FromFirstLetter(name[i..]) == FromFirstLetter(name)
    {
      assert name[i..][1..] == name[i + 1..];
      i := i + 1;
    }
    r := if i == n then "unknown" else chars[i..];
  }

  // ---- Unique names ----

  function Candidate(name: string, i: nat): string {
    name + "_" + Decimal(i)
  }

  lemma {:induction false} CandidateInjective(name: string, i: nat, j: nat)
    requires Candidate(name, i) == Candidate(name, j)
    ensures i == j
  {
    assert Candidate(name, i)[|name| + 1..] == Decimal(i);
    assert Candidate(name, j)[|name| + 1..] == Decimal(j);
    DecimalInjective(i, j);
  }

  ghost function Candidates(name: string, n: nat): set<string> {
    set i | 0 <= i < n :: Candidate(name, i)
  }

  lemma {:induction false} CandidatesSize(name: string, n: nat)
    ensures |Candidates(name, n)| == n
  {
    if n > 0 {
      CandidatesSize(name, n - 1);
      NextCandidate(name, n - 1);
    }
  }

  lemma {:induction false} NextCandidate(name: string, n: nat)
    ensures Candidate(name, n) !in Candidates(name, n)
    ensures Candidates(name, n + 1) == Candidates(name, n) + {Candidate(name, n)}
  {
    forall i: nat | i < n ensures Candidate(name, i) != Candidate(name, n) {
      if Candidate(name, i) == Candidate(name, n) {
        CandidateInjective(name, i, n);
      }
    }
    hide Candidate;
  }

  /** The unused name itself, or its first unused candidate. */
  ghost predicate IsUniquified(used: set<string>, name: string, r: string) {
    && r !in used
    && (name !in used ==> r == name)
    && (name in used ==> exists i: nat :: IsFirstFree(used, name, i) && r == Candidate(name, i))
  }

  ghost predicate IsFirstFree(used: set<string>, name: string, i: nat) {
    Candidate(name, i) !in used && forall j :: 0 <= j < i ==> Candidate(name, j) in used
  }

  /** Uniquifying is a function of the used names. */
  lemma {:induction false} UniquifiedIsUnique(used: set<string>, name: string, r: string, r': string)
    requires IsUniquified(used, name, r) && IsUniquified(used, name, r')
    ensures r == r'
  {
    if name in used {
      var i: nat :| IsFirstFree(used, name, i) && r == Candidate(name, i);
      var j: nat :| IsFirstFree(used, name, j) && r' == Candidate(name, j);
      assert !(i < j) && !(j < i);
    }
  }

  /** The name, or the name with "_" and the least number that makes it unused. */
  lemma {:induction false} UniquifiedForm(used: set<string>, name: string, r: string)
    requires IsUniquified(used, name, r)
    ensures r !in used && (name !in used ==> r == name)
    ensures name in used ==>
              exists i: nat :: r == name + "_" + Decimal(i) && forall j: nat :: j < i ==>
                name + "_" + Decimal(j) in used
  {
    if name in used {
      var i: nat :| IsFirstFree(used, name, i) && r == Candidate(name, i);
      forall j: nat | j < i ensures name + "_" + Decimal(j) in used {
        assert Candidate(name, j) in used;
      }
    }
  }

  /** A unique name keeps the argument pattern and stays free of separators. */
  lemma {:induction false} UniquifiedKeepsShape(used: set<string>, name: string, r: string)
    requires IsUniquified(used, name, r)
    ensures IsArgName(name) ==> IsArgName(r)
    ensures ':' !in name ==> ':' !in r
    ensures name != "" ==> r != ""
  {
  }

  class NodeNameMapping {
    var usedNames: set<string>
    var nameMapping: map<string, string>

    /** The mapping is one-to-one and its values are used names. */
    ghost predicate Valid()
      reads this
    {
      && (forall x :: x in nameMapping ==> nameMapping[x] in usedNames)
      && (forall x, y :: x in nameMapping && y in nameMapping && nameMapping[x] == nameMapping[y] ==> x == y)
    }

    constructor ()
      ensures Valid() && usedNames == {} && nameMapping == map[]
    {
      usedNames, nameMapping := {}, map[];
    }

    /** Lines 105-113: at most one candidate per used name can be taken, so the loop ends. */
    method UniquifyHelper(name: string) returns (r: string)
      ensures IsUniquified(usedNames, name, r)
    {
      if name !in usedNames {
        return name;
      }
      var i := 0;
      while Candidate(name, i) in usedNames
        invariant Candidates(name, i) <= usedNames
        invariant forall j :: 0 <= j < i ==> Candidate(name, j) in usedNames
        decreases |usedNames| + 1 - i
      {
        i := i + 1;
        CandidatesSize(name, i);
        SubsetCardinality(Candidates(name, i), usedNames);
      }
      assert IsFirstFree(usedNames, name, i);
      return Candidate(name, i);
    }

    /** Lines 121-127. */
    method GetOutputName(name: string) returns (r: string)
      requires Valid()
      modifies this
      ensures Valid() && IsUniquified(old(usedNames), Normalized(name), r) && IsArgName(r)
      ensures usedNames == old(usedNames) + {r} && nameMapping == old(nameMapping)
    {
      var normalized := Normalize(name);
      NormalizedIsArgName(name);
      r := UniquifyHelper(normalized);
      UniquifiedKeepsShape(usedNames, normalized, r);
      usedNames := usedNames + {r};
    }

    /** Lines 115-119. */
    method GetInputName(name: string) returns (r: string)
      requires Valid()
      modifies this
      ensures Valid() && IsUniquified(old(usedNames), Normalized(name), r) && IsArgName(r)
      ensures usedNames == old(usedNames) + {r} && nameMapping == old(nameMapping)[name := r]
    {
      r := GetOutputName(name);
      nameMapping := nameMapping[name := r];
    }

    /** Lines 129-134. */
    method Uniquify(name: string) returns (r: string)
      requires Valid()
      modifies this
      ensures Valid() && IsUniquified(old(usedNames), name, r)
      ensures usedNames == old(usedNames) + {r} && nameMapping == old(nameMapping)[name := r]
    {
      r := UniquifyHelper(name);
      nameMapping := nameMapping[name := r];
      usedNames := usedNames + {r};
    }

    /** Lines 136-144. */
    method UseOutputName(name: string) returns (ok: bool)
      requires Valid()
      modifies this
      ensures Valid() && nameMapping == old(nameMapping)
      ensures ok <==> name !in old(usedNames)
      ensures usedNames == old(usedNames) + {name}
    {
      if name in usedNames {
        assert usedNames + {name} == usedNames;
        return false;
      }
      usedNames := usedNames + {name};
      return true;
    }

    /** Lines 146-150: the empty string when the name was never seen. */
    method Lookup(name: string) returns (r: string)
      ensures r == if name in nameMapping then nameMapping[name] else ""
    {
      r := if name in nameMapping then nameMapping[name] else "";
    }
  }
}
