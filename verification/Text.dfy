/** Numerals and string order, as Go's fmt and string comparison give them. */
module Text {
  function Digit(n: int): char
    requires 0 <= n < 10
  {
    "0123456789"[n]
  }

  function Decimal(n: nat): (r: string)
    ensures |r| >= 1
    ensures forall i :: 0 <= i < |r| ==> r[i] != '-'
  {
    if n < 10 then [Digit(n)] else Decimal(n / 10) + [Digit(n % 10)]
  }

  // The number that a decimal numeral stands for.
  function ValueOf(numeral: string): int {
    if numeral == "" then 0
    else 10 * ValueOf(numeral[..|numeral| - 1]) + (numeral[|numeral| - 1] as int - '0' as int)
  }

  /** Numerals are the usual ones: only digits, standing for their number, without a leading zero. */
  lemma {:induction false} DecimalIsUsual(n: nat)
    ensures ValueOf(Decimal(n)) == n
    ensures forall i :: 0 <= i < |Decimal(n)| ==> '0' <= Decimal(n)[i] <= '9'
    ensures n > 0 ==> Decimal(n)[0] != '0'
    decreases n
  {
    var r := Decimal(n);
    if n >= 10 {
      DecimalIsUsual(n / 10);
      assert r[..|r| - 1] == Decimal(n / 10);
    } else {
      assert r[..0] == "";
    }
  }

  // %d
  function FormatInt(n: int): string {
    if n < 0 then "-" + Decimal(-n) else Decimal(n)
  }

  lemma {:induction false} DecimalInjective(m: nat, n: nat)
    requires Decimal(m) == Decimal(n)
    ensures m == n
    decreases m
  {
    var a, b := Decimal(m), Decimal(n);
    assert a[|a| - 1] == Digit(m % 10) && b[|b| - 1] == Digit(n % 10);
    assert m % 10 == n % 10;
    if m >= 10 && n >= 10 {
      assert a[..|a| - 1] == Decimal(m / 10) && b[..|b| - 1] == Decimal(n / 10);
      DecimalInjective(m / 10, n / 10);
    }
  }

  // fmt.Sprintf("upload-%d-%s", n, key)
  function UploadIdText(n: nat, key: string): string {
    "upload-" + Decimal(n) + "-" + key
  }

  lemma DashPosition(a: string, x: string)
    requires forall i :: 0 <= i < |a| ==> a[i] != '-'
    ensures var s := a + "-" + x; s[|a|] == '-' && forall i :: 0 <= i < |a| ==> s[i] != '-'
  {
  }

  lemma FirstDash(a: string, x: string, b: string, y: string)
    requires forall i :: 0 <= i < |a| ==> a[i] != '-'
    requires forall i :: 0 <= i < |b| ==> b[i] != '-'
    requires a + "-" + x == b + "-" + y
    ensures a == b && x == y
  {
    var s := a + "-" + x;
    DashPosition(a, x);
    DashPosition(b, y);
    assert |a| == |b|;
    assert a == s[..|a|] && b == s[..|b|];
    assert x == s[|a| + 1..] && y == s[|b| + 1..];
  }

  /** Numerals contain no dash, so an upload id text determines both its number and its key,
      whatever dashes the key contains. */
  lemma UploadIdInjective(m: nat, key: string, n: nat, other: string)
    requires UploadIdText(m, key) == UploadIdText(n, other)
    ensures m == n && key == other
  {
    var s := UploadIdText(m, key);
    assert s[7..] == Decimal(m) + "-" + key && s[7..] == Decimal(n) + "-" + other;
    FirstDash(Decimal(m), key, Decimal(n), other);
    DecimalInjective(m, n);
  }

  // ------------------------------------------------------------------ string order

  predicate Less(a: string, b: string) {
    LessFrom(a, b, 0)
  }

  // a < b, when they agree before position i.
  predicate LessFrom(a: string, b: string, i: nat)
    requires i <= |a|
    decreases |a| - i
  {
    i < |b| && (i == |a| || a[i] < b[i] || (a[i] == b[i] && LessFrom(a, b, i + 1)))
  }

  lemma {:induction false} LessFromIrreflexive(a: string, i: nat)
    requires i <= |a|
    ensures !LessFrom(a, a, i)
    decreases |a| - i
  {
    if i < |a| { LessFromIrreflexive(a, i + 1); }
  }

  lemma {:induction false} LessFromTransitive(a: string, b: string, c: string, i: nat)
    requires i <= |a| && i <= |b| && LessFrom(a, b, i) && LessFrom(b, c, i)
    ensures LessFrom(a, c, i)
    decreases |a| - i
  {
    if i < |a| && a[i] == b[i] == c[i] {
      LessFromTransitive(a, b, c, i + 1);
    }
  }

  lemma {:induction false} LessFromTotal(a: string, b: string, i: nat)
    requires i <= |a| && i <= |b| && a[..i] == b[..i]
    ensures a == b || LessFrom(a, b, i) || LessFrom(b, a, i)
    decreases |a| - i
  {
    if i < |a| && i < |b| && a[i] == b[i] {
      assert a[..i + 1] == b[..i + 1];
      LessFromTotal(a, b, i + 1);
    } else if i == |a| == |b| {
      assert a == a[..i] && b == b[..i];
    }
  }

  lemma LessIrreflexive(a: string)
    ensures !Less(a, a)
  {
    LessFromIrreflexive(a, 0);
  }

  lemma LessTransitive(a: string, b: string, c: string)
    requires Less(a, b) && Less(b, c)
    ensures Less(a, c)
  {
    LessFromTransitive(a, b, c, 0);
  }

  lemma LessTotal(a: string, b: string)
    ensures a == b || Less(a, b) || Less(b, a)
  {
    LessFromTotal(a, b, 0);
  }

  // The strings agree up to position k, where a ends first or has the smaller byte.
  ghost predicate DecidedAt(a: string, b: string, k: nat) {
    k <= |a| && k < |b| && a[..k] == b[..k] && (k == |a| || a[k] < b[k])
  }

  lemma AgreeBefore(a: string, b: string, i: nat)
    ensures forall k: nat :: k > i && DecidedAt(a, b, k) ==> i < |a| && i < |b| && a[i] == b[i]
  {
    forall k: nat | k > i && DecidedAt(a, b, k) ensures i < |a| && i < |b| && a[i] == b[i] {
      assert a[..k][i] == b[..k][i];
    }
  }

  lemma {:induction false} LessFromIff(a: string, b: string, i: nat)
    requires i <= |a| && i <= |b| && a[..i] == b[..i]
    ensures LessFrom(a, b, i) <==> exists k: nat :: k >= i && DecidedAt(a, b, k)
    decreases |a| - i
  {
    if i < |a| && i < |b| && a[i] == b[i] {
      assert a[..i + 1] == b[..i + 1];
      LessFromIff(a, b, i + 1);
      assert !DecidedAt(a, b, i);
    } else {
      AgreeBefore(a, b, i);
      assert DecidedAt(a, b, i) <==> LessFrom(a, b, i);
    }
  }

  /** The order is Go's order of strings: the first difference decides, and a prefix comes first. */
  lemma LessIff(a: string, b: string)
    ensures Less(a, b) <==> exists k: nat :: DecidedAt(a, b, k)
  {
    LessFromIff(a, b, 0);
  }

  predicate Ascending(ks: seq<string>) {
    forall i, j :: 0 <= i < j < |ks| ==> Less(ks[i], ks[j])
  }

  lemma AscendingDistinct(ks: seq<string>, i: int, j: int)
    requires Ascending(ks) && 0 <= i < |ks| && 0 <= j < |ks| && ks[i] == ks[j]
    ensures i == j
  {
    LessIrreflexive(ks[i]);
  }

  predicate IsLeast(m: string, s: set<string>) {
    m in s && forall x :: x in s && x != m ==> Less(m, x)
  }

  lemma {:induction false} LeastExists(s: set<string>)
    requires s != {}
    ensures exists m :: IsLeast(m, s)
    decreases |s|
  {
    var x :| x in s;
    var rest := s - {x};
    if rest == {} {
      assert s == {x};
      assert IsLeast(x, s);
    } else {
      LeastExists(rest);
      var m :| IsLeast(m, rest);
      LessTotal(x, m);
      if Less(x, m) {
        forall y | y in s && y != x ensures Less(x, y) {
          assert y in rest;
          if y != m { LessTransitive(x, m, y); }
        }
        assert IsLeast(x, s);
      } else {
        assert IsLeast(m, s);
      }
    }
  }

  lemma LeastUnique(s: set<string>, m: string, n: string)
    requires IsLeast(m, s) && IsLeast(n, s)
    ensures m == n
  {
    if m != n {
      LessTransitive(m, n, m);
      LessIrreflexive(m);
    }
  }

  function Least(s: set<string>): (m: string)
    requires s != {}
    ensures IsLeast(m, s)
  {
    LeastExists(s);
    assert forall m, n :: IsLeast(m, s) && IsLeast(n, s) ==> m == n by {
      forall m, n | IsLeast(m, s) && IsLeast(n, s) ensures m == n { LeastUnique(s, m, n); }
    }
    var m :| m in s && IsLeast(m, s);
    m
  }

  // The elements of a set in ascending order.
  function Sorted(s: set<string>): (ks: seq<string>)
    ensures |ks| == |s|
    ensures forall k :: k in ks <==> k in s
    ensures Ascending(ks)
    decreases |s|
  {
    if s == {} then []
    else
      var m := Least(s);
      [m] + Sorted(s - {m})
  }

  lemma TailMembers(ks: seq<string>)
    requires Ascending(ks) && ks != []
    ensures forall k :: k in ks[1..] <==> k in ks && k != ks[0]
  {
    forall k | k in ks[1..] ensures k != ks[0] {
      var i :| 0 <= i < |ks[1..]| && ks[1..][i] == k;
      AscendingDistinct(ks, 0, if ks[i + 1] == ks[0] then i + 1 else 0);
    }
  }

  /** There is one ascending listing of a set, so the order in which a map is iterated before
      sorting does not matter. */
  lemma {:induction false} SortedUnique(ks: seq<string>, s: set<string>)
    requires Ascending(ks) && forall k :: k in ks <==> k in s
    ensures ks == Sorted(s)
    decreases |ks|
  {
    if ks == [] {
      assert s == {};
    } else {
      var m := ks[0];
      assert m in s;
      assert IsLeast(m, s) by {
        forall x | x in s && x != m ensures Less(m, x) {
          var i :| 0 <= i < |ks| && ks[i] == x;
        }
      }
      LeastUnique(s, m, Least(s));
      var rest := ks[1..];
      TailMembers(ks);
      assert forall k :: k in rest <==> k in s - {m};
      assert Ascending(rest);
      SortedUnique(rest, s - {m});
    }
  }
}
