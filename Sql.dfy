/**
 * The relational vocabulary shared by every stage of the migration: SQL NULL
 * as `Option`, the text functions the statements use (CAST to text, TRIM,
 * UPPER, LOWER, REPLACE, CONCAT), calendar values, and tables as sequences
 * of rows with the join, filter and DISTINCT operations over them.
 *
 * SQL leaves the order of a result unspecified; the functions here fix one
 * (nested-loop order) and the lemmas of the other modules speak about which
 * rows a table holds and how often, never about where.
 */
module Sql {

  datatype Option<+T> = None | Some(value: T)

  /** The outcome of an operation the source can abort with an exception. */
  datatype Result<+T, +E> = Ok(value: T) | Err(error: E)

  /** COALESCE(o, d). */
  function Coalesce<T>(o: Option<T>, d: T): T
  {
    match o
    case Some(v) => v
    case None => d
  }

  /** The truth of `a = b` in a join condition: NULL equals nothing, not even NULL. */
  predicate SqlEq<T(==)>(a: Option<T>, b: Option<T>)
  {
    a.Some? && b.Some? && a.value == b.value
  }

  /** The truth of `o = v` against a literal. */
  predicate IsValue<T(==)>(o: Option<T>, v: T)
  {
    o == Some(v)
  }

  /** The provenance columns every staging and derived row carries. */
  datatype Provenance = Provenance(loadTableId: Option<string>, loadRowId: Option<int>, traceId: int)

  /** A number: text matched by a regular expression and cast to FLOAT, or a stored numeric column. */
  datatype Number = Parsed(text: string) | Stored(value: real)

  // ---------------------------------------------------------------------------
  // Calendar values, ordered as PostgreSQL orders DATE and TIMESTAMP.

  datatype Date = Date(year: int, month: int, day: int)
  datatype Timestamp = Timestamp(date: Date, second: int)

  predicate DateLe(a: Date, b: Date)
  {
    a.year < b.year || (a.year == b.year && (a.month < b.month || (a.month == b.month && a.day <= b.day)))
  }

  predicate TsLe(a: Timestamp, b: Timestamp)
  {
    if a.date == b.date then a.second <= b.second else DateLe(a.date, b.date)
  }

  lemma TsLeTotal(a: Timestamp, b: Timestamp)
    ensures TsLe(a, b) || TsLe(b, a)
    ensures TsLe(a, b) && TsLe(b, a) ==> a == b
  {
  }

  lemma TsLeTrans(a: Timestamp, b: Timestamp, c: Timestamp)
    requires TsLe(a, b) && TsLe(b, c)
    ensures TsLe(a, c)
  {
  }

  /** CAST(t AS DATE). */
  function DateOf(t: Timestamp): Date
  {
    t.date
  }

  /** EXTRACT(YEAR FROM t). */
  function YearOf(t: Timestamp): int
  {
    t.date.year
  }

  // ---------------------------------------------------------------------------
  // Text.

  predicate IsDigit(c: char) { '0' <= c <= '9' }
  predicate IsLowerLetter(c: char) { 'a' <= c <= 'z' }
  predicate IsUpperLetter(c: char) { 'A' <= c <= 'Z' }

  function DigitChar(d: nat): char
    requires d < 10
  {
    ['0', '1', '2', '3', '4', '5', '6', '7', '8', '9'][d]
  }

  /** CAST(n AS TEXT) for a non-negative integer: its decimal digits, without leading zeros. */
  function NatToText(n: nat): (r: string)
    ensures |r| >= 1
    ensures forall i :: 0 <= i < |r| ==> IsDigit(r[i])
    ensures n >= 10 <==> |r| >= 2
    decreases n
  {
    if n < 10 then [DigitChar(n)] else NatToText(n / 10) + [DigitChar(n % 10)]
  }

  /** CAST(i AS TEXT) for an INTEGER column. */
  function IntToText(i: int): (r: string)
    ensures |r| >= 1 && (r[0] == '-' <==> i < 0)
  {
    if i < 0 then "-" + NatToText(-i) else NatToText(i)
  }

  lemma DigitCharInjective(a: nat, b: nat)
    requires a < 10 && b < 10 && DigitChar(a) == DigitChar(b)
    ensures a == b
  {
  }

  lemma {:induction false} NatToTextInjective(a: nat, b: nat)
    requires NatToText(a) == NatToText(b)
    ensures a == b
    decreases a
  {
    if a >= 10 && b >= 10 {
      var ta, tb := NatToText(a / 10), NatToText(b / 10);
      assert NatToText(a) == ta + [DigitChar(a % 10)];
      assert NatToText(b) == tb + [DigitChar(b % 10)];
      assert |ta| == |tb|;
      assert ta == NatToText(a)[..|ta|] == NatToText(b)[..|tb|] == tb;
      DigitCharInjective(a % 10, b % 10);
      NatToTextInjective(a / 10, b / 10);
    } else if a < 10 && b < 10 {
      DigitCharInjective(a, b);
    }
  }

  lemma NegativeText(a: int)
    requires a < 0
    ensures IntToText(a)[1..] == NatToText(-a)
  {
  }

  /** Two integers render to the same text only if they are equal. */
  lemma IntToTextInjective(a: int, b: int)
    requires IntToText(a) == IntToText(b)
    ensures a == b
  {
    if a < 0 && b < 0 {
      NegativeText(a);
      NegativeText(b);
      NatToTextInjective(-a, -b);
    } else if a >= 0 && b >= 0 {
      NatToTextInjective(a, b);
    }
  }

  /** LPAD(s, n, '0'). */
  function PadZero(s: string, n: nat): (r: string)
    ensures |r| >= n && |r| >= |s|
    decreases n - |s|
  {
    if |s| >= n then s else PadZero("0" + s, n)
  }

  /** CAST(d AS TEXT), the ISO form YYYY-MM-DD. */
  function DateText(d: Date): string
  {
    PadZero(IntToText(d.year), 4) + "-" + PadZero(IntToText(d.month), 2) + "-" + PadZero(IntToText(d.day), 2)
  }

  function UpperChar(c: char): char
  {
    if IsLowerLetter(c) then (c as int - 32) as char else c
  }

  function LowerChar(c: char): char
  {
    if IsUpperLetter(c) then (c as int + 32) as char else c
  }

  /** UPPER(s), over the ASCII letters. */
  function Upper(s: string): (r: string)
    ensures |r| == |s|
    ensures forall i :: 0 <= i < |s| ==> r[i] == UpperChar(s[i])
  {
    if s == [] then [] else [UpperChar(s[0])] + Upper(s[1..])
  }

  /** LOWER(s), over the ASCII letters. */
  function Lower(s: string): (r: string)
    ensures |r| == |s|
    ensures forall i :: 0 <= i < |s| ==> r[i] == LowerChar(s[i])
  {
    if s == [] then [] else [LowerChar(s[0])] + Lower(s[1..])
  }

  /** The length of the longest prefix of s whose characters all satisfy p. */
  function SkipWhile(s: string, p: char -> bool): (n: nat)
    ensures n <= |s|
    ensures forall i :: 0 <= i < n ==> p(s[i])
    ensures n < |s| ==> !p(s[n])
  {
    if s != [] && p(s[0]) then 1 + SkipWhile(s[1..], p) else 0
  }

  /** SkipWhile over a concatenation stops inside the first part, or runs through it into the second. */
  lemma {:induction false} SkipWhileConcat(s: string, x: string, p: char -> bool)
    ensures SkipWhile(s + x, p) == if SkipWhile(s, p) < |s| then SkipWhile(s, p) else |s| + SkipWhile(x, p)
  {
    if s == [] {
      assert s + x == x;
    } else {
      assert (s + x)[0] == s[0] && (s + x)[1..] == s[1..] + x;
      if p(s[0]) {
        SkipWhileConcat(s[1..], x, p);
      }
    }
  }

  function Max(a: int, b: int): (m: int)
    ensures m >= a && m >= b && (m == a || m == b)
  {
    if a >= b then a else b
  }

  /** s LIKE '%' + suffix. */
  predicate EndsWith(s: string, suffix: string)
  {
    |suffix| <= |s| && s[|s| - |suffix|..] == suffix
  }

  function TrimLeft(s: string): (r: string)
    ensures |r| <= |s| && r == s[|s| - |r|..]
    ensures r != [] ==> r[0] != ' '
    ensures forall i :: 0 <= i < |s| - |r| ==> s[i] == ' '
  {
    if s != [] && s[0] == ' ' then TrimLeft(s[1..]) else s
  }

  function TrimRight(s: string): (r: string)
    ensures |r| <= |s| && r == s[..|r|]
    ensures r != [] ==> r[|r| - 1] != ' '
    ensures forall i :: |r| <= i < |s| ==> s[i] == ' '
  {
    if s != [] && s[|s| - 1] == ' ' then TrimRight(s[..|s| - 1]) else s
  }

  /** TRIM(s): s without its leading and trailing spaces. */
  function Trim(s: string): string
  {
    TrimRight(TrimLeft(s))
  }

  /** TRIM(s) = '' exactly for a string of spaces, the empty string included. */
  lemma TrimEmpty(s: string)
    ensures Trim(s) == "" <==> forall i :: 0 <= i < |s| ==> s[i] == ' '
  {
    var l := TrimLeft(s);
    if Trim(s) == "" {
      assert forall i :: |s| - |l| <= i < |s| ==> s[i] == l[i - (|s| - |l|)];
    }
  }

  /** Trimming loses only spaces: s is a spaces, Trim(s), and spaces from b on. */
  lemma TrimSplit(s: string) returns (a: nat, b: nat)
    ensures a <= b <= |s| && s[a..b] == Trim(s)
    ensures forall i :: 0 <= i < a ==> s[i] == ' '
    ensures forall i :: b <= i < |s| ==> s[i] == ' '
  {
    var l := TrimLeft(s);
    var r := TrimRight(l);
    a := |s| - |l|;
    b := a + |r|;
    SliceOfSuffix(s, a, |r|);
    forall i | b <= i < |s| ensures s[i] == ' ' {
      assert s[i] == l[i - a];
    }
  }

  lemma SliceOfSuffix(s: string, a: nat, n: nat)
    requires a + n <= |s|
    ensures s[a..a + n] == s[a..][..n]
  {
  }

  /** REPLACE(s, c, ''): s without any occurrence of c. */
  function RemoveChar(s: string, c: char): (r: string)
    ensures c !in r
    ensures |r| <= |s|
    ensures forall x :: x in r <==> x in s && x != c
  {
    if s == [] then [] else (if s[0] == c then [] else [s[0]]) + RemoveChar(s[1..], c)
  }

  lemma {:induction false} RemoveCharIdentity(s: string, c: char)
    requires c !in s
    ensures RemoveChar(s, c) == s
  {
    if s != [] {
      RemoveCharIdentity(s[1..], c);
    }
  }

  /** CONCAT(parts...): NULL arguments count as the empty string. */
  function Concat(parts: seq<Option<string>>): string
  {
    if parts == [] then "" else Coalesce(parts[0], "") + Concat(parts[1..])
  }

  // The order ORDER BY gives text here: lexicographic by character code, the C collation.
  // A database whose default collation is locale-aware may order some strings otherwise.

  predicate StrLe(a: string, b: string)
  {
    if a == [] then true
    else if b == [] then false
    else if a[0] != b[0] then a[0] < b[0]
    else StrLe(a[1..], b[1..])
  }

  predicate StrLt(a: string, b: string)
  {
    StrLe(a, b) && a != b
  }

  lemma {:induction false} StrLeTotal(a: string, b: string)
    ensures StrLe(a, b) || StrLe(b, a)
  {
    if a != [] && b != [] && a[0] == b[0] {
      StrLeTotal(a[1..], b[1..]);
    }
  }

  lemma {:induction false} StrLeAntisym(a: string, b: string)
    requires StrLe(a, b) && StrLe(b, a)
    ensures a == b
  {
    if a != [] && b != [] {
      StrLeAntisym(a[1..], b[1..]);
      assert a == [a[0]] + a[1..];
      assert b == [b[0]] + b[1..];
    }
  }

  lemma {:induction false} StrLeTrans(a: string, b: string, c: string)
    requires StrLe(a, b) && StrLe(b, c)
    ensures StrLe(a, c)
  {
    if a != [] && b != [] && c != [] && a[0] == b[0] && b[0] == c[0] {
      StrLeTrans(a[1..], b[1..], c[1..]);
    }
  }

  lemma StrLtTrans(a: string, b: string, c: string)
    requires StrLt(a, b) && StrLe(b, c)
    ensures StrLt(a, c)
  {
    StrLeTrans(a, b, c);
    if a == c {
      StrLeAntisym(a, b);
    }
  }

  // ---------------------------------------------------------------------------
  // Tables.

  /** A projection applied to every row (SELECT list). */
  function Map<A, B>(xs: seq<A>, f: A -> B): (r: seq<B>)
    ensures |r| == |xs|
    ensures forall i :: 0 <= i < |xs| ==> r[i] == f(xs[i])
  {
    if xs == [] then [] else [f(xs[0])] + Map(xs[1..], f)
  }

  lemma AppendAssoc<A>(a: seq<A>, b: seq<A>, c: seq<A>)
    ensures (a + b) + c == a + (b + c)
  {
  }

  /** INSERT INTO a table just created empty leaves exactly the inserted rows. */
  lemma AppendToEmpty<A>(rows: seq<A>)
    ensures [] + rows == rows
  {
  }

  /** A projection of two tables appended is the two projections appended. */
  lemma {:induction false} MapAppend<A, B>(xs: seq<A>, ys: seq<A>, f: A -> B)
    ensures Map(xs + ys, f) == Map(xs, f) + Map(ys, f)
  {
    var l, r := Map(xs + ys, f), Map(xs, f) + Map(ys, f);
    assert |l| == |r|;
    forall i | 0 <= i < |l| ensures l[i] == r[i] {
      if i < |xs| {
        assert (xs + ys)[i] == xs[i];
      } else {
        assert (xs + ys)[i] == ys[i - |xs|];
      }
    }
  }

  lemma MapMembership<A, B>(xs: seq<A>, f: A -> B)
    ensures forall b :: b in Map(xs, f) <==> exists a :: a in xs && b == f(a)
  {
    var r := Map(xs, f);
    forall b | b in r ensures exists a :: a in xs && b == f(a) {
      var i :| 0 <= i < |r| && r[i] == b;
      assert xs[i] in xs;
    }
    forall a | a in xs ensures f(a) in r {
      var i :| 0 <= i < |xs| && xs[i] == a;
      assert r[i] == f(a);
    }
  }

  /** A row of a mapped table comes from some input row. */
  lemma MapSource<A, B>(xs: seq<A>, f: A -> B, b: B) returns (a: A)
    requires b in Map(xs, f)
    ensures a in xs && b == f(a)
  {
    var i :| 0 <= i < |xs| && Map(xs, f)[i] == b;
    a := xs[i];
  }

  /** A WHERE clause. */
  function Filter<A(!new)>(xs: seq<A>, p: A -> bool): (r: seq<A>)
    ensures |r| <= |xs|
    ensures forall x :: x in r <==> x in xs && p(x)
  {
    if xs == [] then [] else (if p(xs[0]) then [xs[0]] else []) + Filter(xs[1..], p)
  }

  lemma {:induction false} FilterAppend<A(!new)>(xs: seq<A>, ys: seq<A>, p: A -> bool)
    ensures Filter(xs + ys, p) == Filter(xs, p) + Filter(ys, p)
  {
    if xs != [] {
      assert (xs + ys)[0] == xs[0] && (xs + ys)[1..] == xs[1..] + ys;
      FilterAppend(xs[1..], ys, p);
    } else {
      assert xs + ys == ys;
    }
  }

  lemma {:induction false} FilterAll<A(!new)>(xs: seq<A>, p: A -> bool)
    requires forall x :: x in xs ==> p(x)
    ensures Filter(xs, p) == xs
  {
    if xs != [] {
      FilterAll(xs[1..], p);
    }
  }

  lemma {:induction false} FilterNone<A(!new)>(xs: seq<A>, p: A -> bool)
    requires forall x :: x in xs ==> !p(x)
    ensures Filter(xs, p) == []
  {
    if xs != [] {
      FilterNone(xs[1..], p);
    }
  }

  /** One result batch per row, concatenated in row order (a join or a set-returning select). */
  function FlatMap<A(!new), B(!new)>(xs: seq<A>, f: A -> seq<B>): (r: seq<B>)
    ensures forall b :: b in r <==> exists a :: a in xs && b in f(a)
  {
    if xs == [] then [] else f(xs[0]) + FlatMap(xs[1..], f)
  }

  lemma {:induction false} FlatMapAppend<A(!new), B(!new)>(xs: seq<A>, ys: seq<A>, f: A -> seq<B>)
    ensures FlatMap(xs + ys, f) == FlatMap(xs, f) + FlatMap(ys, f)
  {
    if xs != [] {
      assert (xs + ys)[0] == xs[0] && (xs + ys)[1..] == xs[1..] + ys;
      FlatMapAppend(xs[1..], ys, f);
    } else {
      assert xs + ys == ys;
    }
  }

  /** Every row yields at least one result (a LEFT JOIN), so none is lost. */
  lemma {:induction false} FlatMapKeepsRows<A(!new), B(!new)>(xs: seq<A>, f: A -> seq<B>)
    requires forall a :: a in xs ==> |f(a)| >= 1
    ensures |FlatMap(xs, f)| >= |xs|
  {
    if xs != [] {
      FlatMapKeepsRows(xs[1..], f);
    }
  }

  /**
   * The rows of `ys` a LEFT JOIN pairs with one outer row: the matching rows, or a
   * single all-NULL row when nothing matches.
   */
  function LeftMatches<B(!new)>(ys: seq<B>, p: B -> bool): (r: seq<Option<B>>)
    ensures |r| >= 1
    ensures forall b :: Some(b) in r <==> b in ys && p(b)
    ensures None in r <==> (forall b :: b in ys ==> !p(b))
    ensures None in r ==> r == [None]
  {
    var m := Filter(ys, p);
    if m == [] then [None]
    else
      MapMembership(m, (b: B) => Some(b));
      Map(m, (b: B) => Some(b))
  }

  /** An INNER JOIN: one row per pair meeting the ON condition, in nested-loop order. */
  function InnerJoin<A(!new), B(!new), C(!new)>(xs: seq<A>, ys: seq<B>, on: A -> B -> bool, row: A -> B -> C): seq<C>
  {
    FlatMap(xs, (a: A) => Map(Filter(ys, on(a)), row(a)))
  }

  lemma InnerJoinMembership<A(!new), B(!new), C(!new)>(xs: seq<A>, ys: seq<B>, on: A -> B -> bool, row: A -> B -> C)
    ensures forall c :: c in InnerJoin(xs, ys, on, row) <==>
              exists a, b :: a in xs && b in ys && on(a)(b) && c == row(a)(b)
  {
    forall c ensures c in InnerJoin(xs, ys, on, row) <==> exists a, b :: a in xs && b in ys && on(a)(b) && c == row(a)(b) {
      if c in InnerJoin(xs, ys, on, row) {
        var a :| a in xs && c in Map(Filter(ys, on(a)), row(a));
        MapMembership(Filter(ys, on(a)), row(a));
      }
      if exists a, b :: a in xs && b in ys && on(a)(b) && c == row(a)(b) {
        var a, b :| a in xs && b in ys && on(a)(b) && c == row(a)(b);
        MapMembership(Filter(ys, on(a)), row(a));
        assert c in Map(Filter(ys, on(a)), row(a));
      }
    }
  }

  /** The pair of rows an INNER JOIN row comes from. */
  lemma InnerJoinSource<A(!new), B(!new), C(!new)>(xs: seq<A>, ys: seq<B>, on: A -> B -> bool, row: A -> B -> C, c: C)
    returns (a: A, b: B)
    requires c in InnerJoin(xs, ys, on, row)
    ensures a in xs && b in ys && on(a)(b) && c == row(a)(b)
  {
    a :| a in xs && c in Map(Filter(ys, on(a)), row(a));
    var bs := Filter(ys, on(a));
    var i :| 0 <= i < |bs| && Map(bs, row(a))[i] == c;
    b := bs[i];
    assert b in bs;
  }

  /** Every pair meeting the ON condition gives an INNER JOIN row. */
  lemma InnerJoinHas<A(!new), B(!new), C(!new)>(xs: seq<A>, ys: seq<B>, on: A -> B -> bool, row: A -> B -> C, a: A, b: B)
    requires a in xs && b in ys && on(a)(b)
    ensures row(a)(b) in InnerJoin(xs, ys, on, row)
  {
    var bs := Filter(ys, on(a));
    assert b in bs;
    var i :| 0 <= i < |bs| && bs[i] == b;
    assert Map(bs, row(a))[i] == row(a)(b);
  }

  /** A LEFT JOIN: every outer row with each matching inner row, or with NULL when none matches. */
  function LeftJoin<A(!new), B(!new), C(!new)>(xs: seq<A>, ys: seq<B>, on: A -> B -> bool, row: A -> Option<B> -> C)
    : seq<C>
  {
    FlatMap(xs, (a: A) => Map(LeftMatches(ys, on(a)), row(a)))
  }

  /** What a LEFT JOIN makes of the outer row a: row(a, b) for a matching b, or row(a, NULL) when nothing matches. */
  ghost predicate LeftJoined<A, B(!new), C>(c: C, a: A, ys: seq<B>, on: A -> B -> bool, row: A -> Option<B> -> C)
  {
    (exists b :: b in ys && on(a)(b) && c == row(a)(Some(b))) ||
    ((forall b :: b in ys ==> !on(a)(b)) && c == row(a)(None))
  }

  lemma LeftJoinedOne<A(!new), B(!new), C(!new)>(a: A, ys: seq<B>, on: A -> B -> bool, row: A -> Option<B> -> C)
    ensures forall c :: c in Map(LeftMatches(ys, on(a)), row(a)) <==> LeftJoined(c, a, ys, on, row)
  {
    var ms := LeftMatches(ys, on(a));
    MapMembership(ms, row(a));
    forall c | LeftJoined(c, a, ys, on, row) ensures c in Map(ms, row(a)) {
      if exists b :: b in ys && on(a)(b) && c == row(a)(Some(b)) {
        var b :| b in ys && on(a)(b) && c == row(a)(Some(b));
        assert Some(b) in ms;
      } else {
        assert None in ms;
      }
    }
    forall c | c in Map(ms, row(a)) ensures LeftJoined(c, a, ys, on, row) {
      var m :| m in ms && c == row(a)(m);
      if m.Some? {
        assert Some(m.value) in ms;
      }
    }
  }

  lemma LeftJoinMembership<A(!new), B(!new), C(!new)>(xs: seq<A>, ys: seq<B>, on: A -> B -> bool,
                                                      row: A -> Option<B> -> C)
    ensures forall c :: c in LeftJoin(xs, ys, on, row) <==> exists a :: a in xs && LeftJoined(c, a, ys, on, row)
  {
    forall c ensures c in LeftJoin(xs, ys, on, row) <==> exists a :: a in xs && LeftJoined(c, a, ys, on, row) {
      if c in LeftJoin(xs, ys, on, row) {
        var a :| a in xs && c in Map(LeftMatches(ys, on(a)), row(a));
        LeftJoinedOne(a, ys, on, row);
      }
      if exists a :: a in xs && LeftJoined(c, a, ys, on, row) {
        var a :| a in xs && LeftJoined(c, a, ys, on, row);
        LeftJoinedOne(a, ys, on, row);
        assert c in Map(LeftMatches(ys, on(a)), row(a));
      }
    }
  }

  /** The outer row and the join partner (NULL when there was none) a LEFT JOIN row comes from. */
  lemma LeftJoinSource<A(!new), B(!new), C(!new)>(xs: seq<A>, ys: seq<B>, on: A -> B -> bool,
                                                  row: A -> Option<B> -> C, c: C)
    returns (a: A, m: Option<B>)
    requires c in LeftJoin(xs, ys, on, row)
    ensures a in xs && m in LeftMatches(ys, on(a)) && c == row(a)(m)
  {
    a :| a in xs && c in Map(LeftMatches(ys, on(a)), row(a));
    var ms := LeftMatches(ys, on(a));
    var i :| 0 <= i < |ms| && Map(ms, row(a))[i] == c;
    m := ms[i];
  }

  /** An outer row gives a LEFT JOIN row with one of its join partners, or with NULL. */
  lemma LeftJoinKeeps<A(!new), B(!new), C(!new)>(xs: seq<A>, ys: seq<B>, on: A -> B -> bool,
                                                 row: A -> Option<B> -> C, a: A)
    returns (m: Option<B>)
    requires a in xs
    ensures m in LeftMatches(ys, on(a)) && row(a)(m) in LeftJoin(xs, ys, on, row)
  {
    m := LeftMatches(ys, on(a))[0];
    assert row(a)(m) in Map(LeftMatches(ys, on(a)), row(a));
  }

  /** A LEFT JOIN loses no outer row. */
  lemma LeftJoinKeepsRows<A(!new), B(!new), C(!new)>(xs: seq<A>, ys: seq<B>, on: A -> B -> bool,
                                                     row: A -> Option<B> -> C)
    ensures |LeftJoin(xs, ys, on, row)| >= |xs|
    ensures forall a :: a in xs ==> exists m :: m in LeftMatches(ys, on(a)) && row(a)(m) in LeftJoin(xs, ys, on, row)
  {
    FlatMapKeepsRows(xs, (a: A) => Map(LeftMatches(ys, on(a)), row(a)));
    forall a | a in xs ensures exists m :: m in LeftMatches(ys, on(a)) && row(a)(m) in LeftJoin(xs, ys, on, row) {
      var m := LeftMatches(ys, on(a))[0];
      assert row(a)(m) in Map(LeftMatches(ys, on(a)), row(a));
    }
  }

  /** SELECT DISTINCT: the first occurrence of every row, in order. */
  function Distinct<A(==,!new)>(xs: seq<A>): (r: seq<A>)
    ensures forall x :: x in r <==> x in xs
    ensures forall i, j :: 0 <= i < j < |r| ==> r[i] != r[j]
    ensures |r| <= |xs|
    decreases |xs|
  {
    if xs == [] then []
    else
      var d := Distinct(xs[..|xs| - 1]);
      assert xs == xs[..|xs| - 1] + [xs[|xs| - 1]];
      if xs[|xs| - 1] in d then d else d + [xs[|xs| - 1]]
  }

  /** Distinct keeps a duplicate-free table as it is. */
  lemma {:induction false} DistinctOfDistinct<A(!new)>(xs: seq<A>)
    requires forall i, j :: 0 <= i < j < |xs| ==> xs[i] != xs[j]
    ensures Distinct(xs) == xs
    decreases |xs|
  {
    if xs != [] {
      var p := xs[..|xs| - 1];
      DistinctOfDistinct(p);
      assert xs[|xs| - 1] !in p;
      assert xs == p + [xs[|xs| - 1]];
    }
  }

  /** Rows already present add nothing to a DISTINCT: appending them leaves it as it was. */
  lemma {:induction false} DistinctAbsorbs<A(!new)>(xs: seq<A>, ys: seq<A>)
    requires forall y :: y in ys ==> y in xs
    ensures Distinct(xs + ys) == Distinct(xs)
    decreases |ys|
  {
    if ys != [] {
      var zs := ys[..|ys| - 1];
      DistinctAbsorbs(xs, zs);
      assert (xs + ys)[..|xs + ys| - 1] == xs + zs;
      assert (xs + ys)[|xs + ys| - 1] == ys[|ys| - 1];
    } else {
      assert xs + ys == xs;
    }
  }

  /** MIN over a non-empty column. */
  function MinOf(s: seq<int>): (m: int)
    requires |s| > 0
    ensures m in s
    ensures forall x :: x in s ==> m <= x
  {
    if |s| == 1 then s[0]
    else
      var t := MinOf(s[1..]);
      assert s == [s[0]] + s[1..];
      if s[0] <= t then s[0] else t
  }

  /** MAX over a non-empty column. */
  function MaxOf(s: seq<int>): (m: int)
    requires |s| > 0
    ensures m in s
    ensures forall x :: x in s ==> x <= m
  {
    if |s| == 1 then s[0]
    else
      var t := MaxOf(s[1..]);
      assert s == [s[0]] + s[1..];
      if s[0] >= t then s[0] else t
  }

  /** COUNT(*) of the rows satisfying p. */
  function Count<A(!new)>(xs: seq<A>, p: A -> bool): nat
  {
    |Filter(xs, p)|
  }

  /** A weaker condition counts at least as many rows, and strictly more when some row meets only it. */
  lemma {:induction false} CountMono<A(!new)>(xs: seq<A>, p: A -> bool, q: A -> bool)
    requires forall x :: x in xs && p(x) ==> q(x)
    ensures Count(xs, p) <= Count(xs, q)
    ensures (exists x :: x in xs && q(x) && !p(x)) ==> Count(xs, p) < Count(xs, q)
  {
    if xs != [] {
      CountMono(xs[1..], p, q);
      assert forall x :: x in xs[1..] ==> x in xs;
      if exists x :: x in xs && q(x) && !p(x) {
        var x :| x in xs && q(x) && !p(x);
        if x != xs[0] {
          assert x in xs[1..];
        }
      }
    }
  }

  /** Rows appended after a filtered table and rejected by the filter vanish when it is applied again. */
  lemma FilterDropsAppended<A(!new)>(xs: seq<A>, ys: seq<A>, p: A -> bool)
    requires forall y :: y in ys ==> !p(y)
    ensures Filter(Filter(xs, p) + ys, p) == Filter(xs, p)
  {
    FilterAppend(Filter(xs, p), ys, p);
    FilterIdempotent(xs, p);
    FilterNone(ys, p);
  }

  /** A condition that no two rows meet selects at most one row. */
  lemma {:induction false} FilterAtMostOne<A(!new)>(xs: seq<A>, p: A -> bool)
    requires forall i, j :: 0 <= i < j < |xs| ==> !(p(xs[i]) && p(xs[j]))
    ensures |Filter(xs, p)| <= 1
  {
    if xs != [] {
      if p(xs[0]) {
        forall x | x in xs[1..] ensures !p(x) {
          var k :| 0 <= k < |xs[1..]| && xs[1..][k] == x;
          assert xs[k + 1] == x;
        }
        FilterNone(xs[1..], p);
      } else {
        forall i, j | 0 <= i < j < |xs[1..]| ensures !(p(xs[1..][i]) && p(xs[1..][j])) {
          assert xs[1..][i] == xs[i + 1] && xs[1..][j] == xs[j + 1];
        }
        FilterAtMostOne(xs[1..], p);
      }
    }
  }

  /** Filtering twice by the same condition is filtering once. */
  lemma FilterIdempotent<A(!new)>(xs: seq<A>, p: A -> bool)
    ensures Filter(Filter(xs, p), p) == Filter(xs, p)
  {
    FilterAll(Filter(xs, p), p);
  }
}
