/**
 * The regular expressions the measurement mappers apply to free-text values,
 * written as left-to-right character scans: the leading number
 * ([-]?[\d]+[.]?[\d]*), the unit suffix of a chart value, the leftmost number
 * and the leftmost run of lower-case letters, and the comparison operator that
 * may start a lab value.
 */
module Patterns {
  import opened Sql

  predicate IsSpace(c: char)
  {
    c == ' '
  }

  /** The length of the run of characters satisfying p that starts at index k of s. */
  function RunFrom(s: string, k: nat, p: char -> bool): (d: nat)
    requires k <= |s|
    ensures k + d <= |s|
    ensures forall i :: k <= i < k + d ==> p(s[i])
    ensures k + d < |s| ==> !p(s[k + d])
  {
    var d := SkipWhile(s[k..], p);
    assert forall i :: k <= i < k + d ==> s[i] == s[k..][i - k];
    d
  }

  /** A run that stops inside s stops at the same place when more text follows s. */
  lemma RunFromConcat(s: string, x: string, k: nat, p: char -> bool)
    requires k <= |s| && k + RunFrom(s, k, p) < |s|
    ensures RunFrom(s + x, k, p) == RunFrom(s, k, p)
  {
    assert (s + x)[k..] == s[k..] + x;
    SkipWhileConcat(s[k..], x, p);
  }

  /** The length of the optional leading '-'. */
  function SignLength(s: string): (a: nat)
    ensures a <= |s| && (a == 1 <==> |s| > 0 && s[0] == '-')
  {
    if |s| > 0 && s[0] == '-' then 1 else 0
  }

  /** The end of the optional '.' at index b. */
  function PointEnd(s: string, b: nat): (c: nat)
    requires b <= |s|
    ensures c <= |s| && (c == b + 1 <==> b < |s| && s[b] == '.') && (c == b || c == b + 1)
  {
    if b < |s| && s[b] == '.' then b + 1 else b
  }

  /**
   * The length of the match of [-]?[\d]+[.]?[\d]* at the start of s, or 0 when none starts
   * there. The quantifiers are greedy and nothing after them can give characters back, so
   * the longest match is the one a left-to-right scan finds.
   */
  function NumberPrefix(s: string): (n: nat)
    ensures n <= |s|
  {
    var a := SignLength(s);
    var d := RunFrom(s, a, IsDigit);
    if d == 0 then 0
    else
      var c := PointEnd(s, a + d);
      c + RunFrom(s, c, IsDigit)
  }

  /** A number holds only '-', '.' and digits. */
  lemma NumberChars(s: string)
    ensures forall i :: 0 <= i < NumberPrefix(s) ==> s[i] == '-' || s[i] == '.' || IsDigit(s[i])
  {
    var a := SignLength(s);
    var d := RunFrom(s, a, IsDigit);
    if d > 0 {
      var c := PointEnd(s, a + d);
      var e := RunFrom(s, c, IsDigit);
      forall i | 0 <= i < NumberPrefix(s) ensures s[i] == '-' || s[i] == '.' || IsDigit(s[i]) {
        if i < a {
        } else if i < a + d {
        } else if i < c {
        } else {
          assert c <= i < c + e;
        }
      }
    }
  }

  /** No number starts at a space. */
  lemma NoNumberAtSpace(s: string)
    requires |s| > 0 && s[0] == ' '
    ensures NumberPrefix(s) == 0
  {
    assert SignLength(s) == 0;
  }

  /** A number that ends inside t is the number of t followed by anything. */
  lemma NumberPrefixConcat(t: string, x: string)
    requires 0 < NumberPrefix(t) < |t|
    ensures NumberPrefix(t + x) == NumberPrefix(t)
  {
    var s := t + x;
    var a := SignLength(t);
    assert s[0] == t[0];
    assert SignLength(s) == a;
    var d := RunFrom(t, a, IsDigit);
    RunFromConcat(t, x, a, IsDigit);
    var c := PointEnd(t, a + d);
    assert s[a + d] == t[a + d];
    assert PointEnd(s, a + d) == c;
    RunFromConcat(t, x, c, IsDigit);
  }

  /** The index where the unit starts: after the number and the spaces that follow it. */
  function UnitStart(t: string): (sp: nat)
    ensures NumberPrefix(t) <= sp <= |t|
    ensures forall i :: NumberPrefix(t) <= i < sp ==> t[i] == ' '
  {
    NumberPrefix(t) + RunFrom(t, NumberPrefix(t), IsSpace)
  }

  /** TRIM(value) ~ '^[-]?[\d]+[.]?[\d]*[ ]*[a-z]+$': a number, optional spaces, then lower-case letters to the end. */
  predicate HasUnitSuffix(t: string)
  {
    NumberPrefix(t) > 0 && UnitStart(t) < |t| && RunFrom(t, UnitStart(t), IsLowerLetter) == |t| - UnitStart(t)
  }

  /** REGEXP_MATCH(s, '[-]?[\d]+[.]?[\d]*'): the leftmost match, or NULL. */
  function FirstNumber(s: string): Option<string>
  {
    if s == [] then None
    else if NumberPrefix(s) > 0 then Some(s[..NumberPrefix(s)])
    else FirstNumber(s[1..])
  }

  /** REGEXP_MATCH(s, '[a-z]+'): the leftmost run of lower-case letters, or NULL. */
  function FirstLetters(s: string): Option<string>
  {
    if s == [] then None
    else if IsLowerLetter(s[0]) then Some(s[..RunFrom(s, 0, IsLowerLetter)])
    else FirstLetters(s[1..])
  }

  /** CAST(s AS character varying(20)). */
  function Truncate(s: string, n: nat): (r: string)
    ensures |r| <= n && |r| <= |s| && r == s[..|r|]
    ensures |s| <= n ==> r == s
    ensures |s| > n ==> |r| == n
  {
    if |s| <= n then s else s[..n]
  }

  lemma {:induction false} FirstNumberSkip(s: string, k: nat)
    requires k <= |s|
    requires forall i :: 0 <= i < k ==> NumberPrefix(s[i..]) == 0
    ensures FirstNumber(s) == FirstNumber(s[k..])
  {
    if k > 0 {
      assert NumberPrefix(s[0..]) == 0 && s[0..] == s;
      forall i | 0 <= i < k - 1 ensures NumberPrefix(s[1..][i..]) == 0 {
        assert s[1..][i..] == s[i + 1..];
      }
      FirstNumberSkip(s[1..], k - 1);
      assert s[1..][k - 1..] == s[k..];
    }
  }

  lemma {:induction false} FirstLettersSkip(s: string, k: nat)
    requires k <= |s|
    requires forall i :: 0 <= i < k ==> !IsLowerLetter(s[i])
    ensures FirstLetters(s) == FirstLetters(s[k..])
  {
    if k > 0 {
      FirstLettersSkip(s[1..], k - 1);
      assert s[1..][k - 1..] == s[k..];
    }
  }

  /** Where the trimmed value sits inside the value: v is spaces, t, spaces. */
  predicate PaddedBy(v: string, t: string, a: nat, b: nat)
  {
    a <= b <= |v| && v[a..b] == t &&
    (forall i :: 0 <= i < a ==> v[i] == ' ') && (forall i :: b <= i < |v| ==> v[i] == ' ')
  }

  lemma SliceSplit(v: string, a: nat, b: nat)
    requires a <= b <= |v|
    ensures v[a..] == v[a..b] + v[b..]
  {
  }

  /** Dropping k characters from where t starts leaves the rest of t and what follows it. */
  lemma TailSplit(v: string, t: string, a: nat, b: nat, k: nat)
    requires a <= b <= |v| && v[a..b] == t && k <= |t|
    ensures v[a + k..] == t[k..] + v[b..]
  {
    assert v[a + k..] == v[a + k..b] + v[b..];
    assert v[a + k..b] == v[a..b][k..];
  }

  /** No number starts among the leading spaces. */
  lemma NoNumberInSpaces(v: string, a: nat)
    requires a <= |v| && forall i :: 0 <= i < a ==> v[i] == ' '
    ensures forall i :: 0 <= i < a ==> NumberPrefix(v[i..]) == 0
  {
    forall i | 0 <= i < a ensures NumberPrefix(v[i..]) == 0 {
      NoNumberAtSpace(v[i..]);
    }
  }

  /** A number that ends inside t is the leftmost number of t followed by anything. */
  lemma FirstNumberOfConcat(t: string, x: string)
    requires 0 < NumberPrefix(t) < |t|
    ensures FirstNumber(t + x) == Some(t[..NumberPrefix(t)])
  {
    NumberPrefixConcat(t, x);
    assert (t + x)[..NumberPrefix(t)] == t[..NumberPrefix(t)];
  }

  /** The leftmost number of the padded value is the leading number of t. */
  lemma NumberOfPadded(v: string, t: string, a: nat, b: nat)
    requires PaddedBy(v, t, a, b) && 0 < NumberPrefix(t) < |t|
    ensures FirstNumber(v) == Some(t[..NumberPrefix(t)])
  {
    NoNumberInSpaces(v, a);
    FirstNumberSkip(v, a);
    TailSplit(v, t, a, b, 0);
    FirstNumberOfConcat(t, v[b..]);
  }

  /** Up to the unit, the padded value holds no lower-case letter. */
  lemma NoLettersBeforeUnit(v: string, t: string, a: nat, b: nat)
    requires PaddedBy(v, t, a, b)
    ensures forall i :: 0 <= i < a + UnitStart(t) ==> !IsLowerLetter(v[i])
  {
    NumberChars(t);
    forall i | 0 <= i < a + UnitStart(t) ensures !IsLowerLetter(v[i]) {
      if a <= i {
        assert v[i] == t[i - a];
      }
    }
  }

  /** A run is exactly as long as the stretch where p holds up to the first character where it fails. */
  lemma RunFromExact(s: string, k: nat, l: nat, p: char -> bool)
    requires k + l <= |s|
    requires forall i :: k <= i < k + l ==> p(s[i])
    requires k + l < |s| ==> !p(s[k + l])
    ensures RunFrom(s, k, p) == l
  {
  }

  /** Lower-case letters followed by spaces: the leftmost run of letters is all of them. */
  lemma LettersBeforeSpaces(u: string, x: string)
    requires u != [] && forall i :: 0 <= i < |u| ==> IsLowerLetter(u[i])
    requires forall i :: 0 <= i < |x| ==> x[i] == ' '
    ensures FirstLetters(u + x) == Some(u)
  {
    var w := u + x;
    if |u| < |w| {
      assert w[|u|] == x[0];
    }
    RunFromExact(w, 0, |u|, IsLowerLetter);
    assert w[..|u|] == u;
  }

  /** The leftmost run of lower-case letters of the padded value is the unit of t. */
  lemma LettersOfPadded(v: string, t: string, a: nat, b: nat)
    requires PaddedBy(v, t, a, b) && HasUnitSuffix(t)
    ensures FirstLetters(v) == Some(t[UnitStart(t)..])
  {
    NoLettersBeforeUnit(v, t, a, b);
    UnitLetters(t);
    LettersFrom(v, t, a, b, UnitStart(t));
  }

  /** No lower-case letter before index k of t, and only lower-case letters from there: the leftmost run is t[k..]. */
  lemma {:induction false} LettersFrom(v: string, t: string, a: nat, b: nat, k: nat)
    requires a <= b <= |v| && v[a..b] == t && k < |t|
    requires forall i :: 0 <= i < a + k ==> !IsLowerLetter(v[i])
    requires forall i :: b <= i < |v| ==> v[i] == ' '
    requires forall i :: k <= i < |t| ==> IsLowerLetter(t[i])
    ensures FirstLetters(v) == Some(t[k..])
  {
    FirstLettersSkip(v, a + k);
    LettersAfterPadding(v, t, a, b, k);
  }

  /** The unit of a value with a unit suffix is a non-empty run of lower-case letters. */
  lemma UnitLetters(t: string)
    requires HasUnitSuffix(t)
    ensures UnitStart(t) < |t|
    ensures forall i :: UnitStart(t) <= i < |t| ==> IsLowerLetter(t[i])
  {
  }

  /** Lower-case letters from index k of t to its end stay the leftmost run in the padded value. */
  lemma LettersAfterPadding(v: string, t: string, a: nat, b: nat, k: nat)
    requires a <= b <= |v| && v[a..b] == t && k < |t|
    requires forall i :: b <= i < |v| ==> v[i] == ' '
    requires forall i :: k <= i < |t| ==> IsLowerLetter(t[i])
    ensures FirstLetters(v[a + k..]) == Some(t[k..])
  {
    var u := t[k..];
    forall i | 0 <= i < |u| ensures IsLowerLetter(u[i]) {
      assert u[i] == t[k + i];
    }
    TailSplit(v, t, a, b, k);
    forall i | 0 <= i < |v[b..]| ensures v[b..][i] == ' ' {
      assert v[b..][i] == v[b + i];
    }
    LettersBeforeSpaces(u, v[b..]);
  }

  /**
   * When the trimmed value is a number followed by a unit, the two leftmost matches on the
   * untrimmed value are exactly the leading number of the trimmed value and its trailing
   * letters: the surrounding spaces, the number and the spaces before the unit hold no
   * lower-case letter, and no number starts among the leading spaces.
   */
  lemma ValueSplitMatches(v: string)
    requires HasUnitSuffix(Trim(v))
    ensures FirstNumber(v) == Some(Trim(v)[..NumberPrefix(Trim(v))])
    ensures FirstLetters(v) == Some(Trim(v)[UnitStart(Trim(v))..])
  {
    var a, b := TrimSplit(v);
    assert PaddedBy(v, Trim(v), a, b);
    NumberOfPadded(v, Trim(v), a, b);
    LettersOfPadded(v, Trim(v), a, b);
  }

  /** No number starts before index k of s. */
  predicate NoNumberBefore(s: string, k: nat)
    requires k <= |s|
  {
    forall j :: 0 <= j < k ==> NumberPrefix(s[j..]) == 0
  }

  /** A number starts at index k of s, and it reads x. */
  predicate NumberAt(s: string, k: nat, x: string)
  {
    k < |s| && NumberPrefix(s[k..]) > 0 && x == s[k..][..NumberPrefix(s[k..])]
  }

  lemma NoNumberShift(s: string, k: nat)
    requires s != [] && NumberPrefix(s) == 0 && k <= |s| - 1 && NoNumberBefore(s[1..], k)
    ensures NoNumberBefore(s, k + 1)
  {
    forall j | 0 <= j < k + 1 ensures NumberPrefix(s[j..]) == 0 {
      if j == 0 {
        assert s[0..] == s;
      } else {
        assert s[1..][j - 1..] == s[j..];
      }
    }
  }

  lemma NumberAtShift(s: string, k: nat, x: string)
    requires s != [] && NumberAt(s[1..], k, x)
    ensures NumberAt(s, k + 1, x)
  {
    assert s[1..][k..] == s[k + 1..];
  }

  /**
   * The leftmost number: when there is one it starts at some k where a number starts and
   * no number starts before k; and there is none exactly when no number starts anywhere.
   */
  lemma {:induction false} FirstNumberLeftmost(s: string)
    ensures FirstNumber(s).None? <==> NoNumberBefore(s, |s|)
    ensures FirstNumber(s).Some? ==>
              exists k: nat :: k < |s| && NoNumberBefore(s, k) && NumberAt(s, k, FirstNumber(s).value)
  {
    if s != [] {
      if NumberPrefix(s) == 0 {
        FirstNumberLeftmost(s[1..]);
        assert FirstNumber(s) == FirstNumber(s[1..]);
        if FirstNumber(s).Some? {
          var x := FirstNumber(s).value;
          var k: nat :| k < |s[1..]| && NoNumberBefore(s[1..], k) && NumberAt(s[1..], k, x);
          NoNumberShift(s, k);
          NumberAtShift(s, k, x);
        } else {
          NoNumberShift(s, |s| - 1);
        }
      } else {
        assert s[0..] == s;
        assert NumberAt(s, 0, FirstNumber(s).value);
      }
    }
  }

  /** The comparison operators a lab value may start with: '^(\<=|\>=|\>|\<|=|)'. */
  const Operators: seq<string> := ["<=", ">=", ">", "<", "="]

  predicate IsPrefix(p: string, s: string)
  {
    |p| <= |s| && s[..|p|] == p
  }

  /**
   * The captured operator at the start of a lab value. The pattern always matches, at
   * worst on the empty alternative; of the alternatives that start the value it takes the
   * longest, which is also the first listed.
   */
  function LeadingOperator(s: string): (op: string)
    ensures IsPrefix(op, s)
    ensures op == "" || op in Operators
    ensures forall x :: x in Operators && IsPrefix(x, s) ==> |x| <= |op|
  {
    if |s| >= 2 && s[..2] == "<=" then "<="
    else if |s| >= 2 && s[..2] == ">=" then ">="
    else if |s| >= 1 && s[0] == '>' then ">"
    else if |s| >= 1 && s[0] == '<' then "<"
    else if |s| >= 1 && s[0] == '=' then "="
    else ""
  }

  /** The value "5 mg": the number "5", one blank, then the unit "mg". */
  lemma FiveMgNumber()
    ensures NumberPrefix("5 mg") == 1 && UnitStart("5 mg") == 2
  {
    var s := "5 mg";
    assert s[0] == '5' && s[1] == ' ' && s[2] == 'm' && |s| == 4;
    assert SignLength(s) == 0;
    assert IsDigit(s[0]) && !IsDigit(s[1]);
    assert RunFrom(s, 0, IsDigit) == 1;
    assert PointEnd(s, 1) == 1;
    assert RunFrom(s, 1, IsDigit) == 0;
    assert NumberPrefix(s) == 1;
    assert IsSpace(s[1]) && !IsSpace(s[2]);
    assert RunFrom(s, 1, IsSpace) == 1;
  }

  lemma FiveMgUnitSuffix()
    ensures HasUnitSuffix("5 mg")
  {
    FiveMgNumber();
    var s := "5 mg";
    assert s[2] == 'm' && s[3] == 'g' && |s| == 4;
    assert IsLowerLetter(s[2]) && IsLowerLetter(s[3]);
    assert RunFrom(s, 2, IsLowerLetter) == 2;
  }

  lemma FiveMgTrimmed()
    ensures Trim("5 mg") == "5 mg"
  {
    assert TrimLeft("5 mg") == "5 mg";
    assert TrimRight("5 mg") == "5 mg";
  }

  /** Reading '5 mg' from the left: '5' and ' ' are not letters, and 'mg' is the run that follows. */
  lemma FiveMgFirstLetters()
    ensures FirstLetters("5 mg") == Some("mg")
  {
    var s := "5 mg";
    assert !IsLowerLetter(s[0]) && !IsLowerLetter(s[1]);
    var u := "mg";
    assert s[1..][1..] == u;
    assert FirstLetters(s) == FirstLetters(s[1..]) == FirstLetters(u);
    assert IsLowerLetter(u[0]) && IsLowerLetter(u[1]) && |u| == 2;
    assert RunFrom(u, 0, IsLowerLetter) == 2;
    assert u[..2] == u;
  }

  lemma FiveMgLetters()
    ensures Trim("5 mg") == "5 mg" && HasUnitSuffix(Trim("5 mg")) && FirstLetters("5 mg") == Some("mg")
  {
    FiveMgTrimmed();
    FiveMgUnitSuffix();
    FiveMgFirstLetters();
  }
}
