/** Name disambiguation of internal/daemon/project.go. Names are compared after trimming and
    lower-casing; the Unicode tables behind both are a parameter. */
module ProjectNames {

  // unicode.ToLower and unicode.IsSpace.
  datatype Text = Text(lower: char -> char, space: char -> bool)

  predicate IsDigitChar(c: char) { '0' <= c <= '9' }

  // What the ASCII rows of the tables say about the characters of a suffix.
  ghost predicate Valid(u: Text) {
    && u.space(' ') && !u.space('(') && !u.space(')')
    && u.lower('(') == '(' && u.lower(')') == ')' && u.lower(' ') == ' '
    && forall c: char :: IsDigitChar(c) ==> u.lower(c) == c && !u.space(c)
  }

  function TrimLeft(u: Text, s: string): string {
    if s != [] && u.space(s[0]) then TrimLeft(u, s[1..]) else s
  }

  function TrimRight(u: Text, s: string): string {
    if s != [] && u.space(s[|s| - 1]) then TrimRight(u, s[..|s| - 1]) else s
  }

  function Trim(u: Text, s: string): string { TrimRight(u, TrimLeft(u, s)) }

  function Lower(u: Text, s: string): string {
    seq(|s|, i requires 0 <= i < |s| => u.lower(s[i]))
  }

  function Norm(u: Text, s: string): string { Lower(u, Trim(u, s)) }

  predicate Trimmed(u: Text, s: string) {
    s == [] || (!u.space(s[0]) && !u.space(s[|s| - 1]))
  }

  lemma {:induction false} TrimLeftEnds(u: Text, s: string)
    ensures var t := TrimLeft(u, s); t == [] || (!u.space(t[0]) && s != [] && t[|t| - 1] == s[|s| - 1])
    decreases |s|
  {
    if s != [] && u.space(s[0]) {
      TrimLeftEnds(u, s[1..]);
    }
  }

  lemma {:induction false} TrimRightEnds(u: Text, s: string)
    ensures var t := TrimRight(u, s); t == [] || (!u.space(t[|t| - 1]) && s != [] && t[0] == s[0])
    decreases |s|
  {
    if s != [] && u.space(s[|s| - 1]) {
      TrimRightEnds(u, s[..|s| - 1]);
    }
  }

  lemma TrimIsTrimmed(u: Text, s: string)
    ensures Trimmed(u, Trim(u, s))
  {
    TrimLeftEnds(u, s);
    TrimRightEnds(u, TrimLeft(u, s));
  }

  lemma TrimFixesTrimmed(u: Text, s: string)
    requires Trimmed(u, s)
    ensures Trim(u, s) == s
  {
  }

  // ---------------------------------------------------------------- decimal suffixes

  function Digit(d: nat): char
    requires d < 10
  {
    '0' + d as char
  }

  function Itoa(n: nat): (s: string)
    ensures |s| > 0 && forall i :: 0 <= i < |s| ==> IsDigitChar(s[i])
  {
    if n < 10 then [Digit(n)] else Itoa(n / 10) + [Digit(n % 10)]
  }

  lemma {:induction false} ItoaInjective(a: nat, b: nat)
    requires Itoa(a) == Itoa(b)
    ensures a == b
    decreases a
  {
    var s, t := Itoa(a), Itoa(b);
    assert s[|s| - 1] == Digit(a % 10) && t[|t| - 1] == Digit(b % 10);
    if a >= 10 && b >= 10 {
      assert s[..|s| - 1] == Itoa(a / 10) && t[..|t| - 1] == Itoa(b / 10);
      ItoaInjective(a / 10, b / 10);
    }
  }

  function Candidate(base: string, n: nat): string {
    base + " (" + Itoa(n) + ")"
  }

  lemma LowerConcat(u: Text, s: string, t: string)
    ensures Lower(u, s + t) == Lower(u, s) + Lower(u, t)
  {
  }

  lemma LowerSuffix(u: Text, n: nat)
    requires Valid(u)
    ensures Lower(u, Itoa(n) + ")") == Itoa(n) + ")"
  {
  }

  // The text a candidate is compared by: everything but the digits is the same for all.
  lemma NormOfCandidate(u: Text, base: string, n: nat)
    requires Valid(u) && Trimmed(u, base)
    ensures Norm(u, Candidate(base, n)) ==
            Lower(u, if base == [] then "(" else base + " (") + (Itoa(n) + ")")
  {
    var head := if base == [] then "(" else base + " (";
    var body := head + (Itoa(n) + ")");
    var c := Candidate(base, n);
    if base == [] {
      assert c == [' '] + body;
      assert c[1..] == body;
      assert TrimLeft(u, c) == TrimLeft(u, body);
    } else {
      assert c == body;
    }
    assert Trimmed(u, body);
    TrimFixesTrimmed(u, body);
    LowerConcat(u, head, Itoa(n) + ")");
    LowerSuffix(u, n);
  }

  lemma CandidatesDiffer(u: Text, base: string, n: nat, m: nat)
    requires Valid(u) && Trimmed(u, base)
    requires Norm(u, Candidate(base, n)) == Norm(u, Candidate(base, m))
    ensures n == m
  {
    NormOfCandidate(u, base, n);
    NormOfCandidate(u, base, m);
    var head := Lower(u, if base == [] then "(" else base + " (");
    var a, b := Itoa(n) + ")", Itoa(m) + ")";
    assert a == (head + a)[|head|..] && b == (head + b)[|head|..];
    assert Itoa(n) == a[..|a| - 1] && Itoa(m) == b[..|b| - 1];
    ItoaInjective(n, m);
  }

  // Suffixes 2 .. n-1 all taken means at least n-2 names are taken.
  lemma {:induction false} TakenPigeons(u: Text, used: set<string>, base: string, n: nat)
    requires Valid(u) && Trimmed(u, base) && n >= 2
    requires forall m :: 2 <= m < n ==> Norm(u, Candidate(base, m)) in used
    ensures n - 2 <= |used|
    decreases n
  {
    if n > 2 {
      var last := Norm(u, Candidate(base, n - 1));
      forall m | 2 <= m < n - 1 ensures Norm(u, Candidate(base, m)) in used - {last} {
        if Norm(u, Candidate(base, m)) == last {
          CandidatesDiffer(u, base, m, n - 1);
        }
      }
      TakenPigeons(u, used - {last}, base, n - 1);
    }
  }

  function Used(u: Text, taken: seq<string>): set<string> {
    set i | 0 <= i < |taken| :: Norm(u, taken[i])
  }

  // `name` is what the source promises: the trimmed text, or its least free suffix.
  ghost predicate IsUniqueName(u: Text, used: set<string>, want: string, name: string) {
    var base := Trim(u, want);
    if Norm(u, base) !in used then name == base
    else exists n: nat :: n >= 2 && name == Candidate(base, n) && Norm(u, name) !in used
                          && forall m :: 2 <= m < n ==> Norm(u, Candidate(base, m)) in used
  }

  method NormalizeAll(u: Text, taken: seq<string>) returns (used: set<string>)
    ensures used == Used(u, taken)
  {
    used := {};
    for i := 0 to |taken|
      invariant used == set k | 0 <= k < i :: Norm(u, taken[k])
    {
      used := used + {Norm(u, taken[i])};
    }
  }

  method UniqueProjectName(u: Text, taken: seq<string>, want: string) returns (name: string)
    requires Valid(u)
    ensures IsUniqueName(u, Used(u, taken), want, name)
    ensures Norm(u, name) !in Used(u, taken)
  {
    var used := NormalizeAll(u, taken);
    var base := Trim(u, want);
    TrimIsTrimmed(u, want);
    TrimFixesTrimmed(u, base);
    if Norm(u, base) !in used {
      return base;
    }
    name := FirstFree(u, used, base);
  }

  // The candidate loop: it has no bound of its own and ends because names run out.
  method FirstFree(u: Text, used: set<string>, base: string) returns (name: string)
    requires Valid(u) && Trimmed(u, base)
    ensures exists n: nat :: n >= 2 && name == Candidate(base, n) && Norm(u, name) !in used
                             && forall m :: 2 <= m < n ==> Norm(u, Candidate(base, m)) in used
  {
    var n := 2;
    while true
      invariant n >= 2
      invariant forall m :: 2 <= m < n ==> Norm(u, Candidate(base, m)) in used
      decreases |used| + 2 - n
    {
      name := Candidate(base, n);
      if Norm(u, name) !in used {
        return;
      }
      TakenPigeons(u, used, base, n + 1);
      n := n + 1;
    }
  }

  // The name is determined: there is one least free suffix.
  lemma UniqueNameIsUnique(u: Text, used: set<string>, want: string, a: string, b: string)
    requires IsUniqueName(u, used, want, a) && IsUniqueName(u, used, want, b)
    ensures a == b
  {
    var base := Trim(u, want);
    if Norm(u, base) in used {
      var n: nat :| n >= 2 && a == Candidate(base, n) && Norm(u, a) !in used
                    && forall m :: 2 <= m < n ==> Norm(u, Candidate(base, m)) in used;
      var k: nat :| k >= 2 && b == Candidate(base, k) && Norm(u, b) !in used
                    && forall m :: 2 <= m < k ==> Norm(u, Candidate(base, m)) in used;
    }
  }

  // The first suffix tried is " (2)".
  lemma SecondOfAName(u: Text, used: set<string>, want: string, name: string)
    requires IsUniqueName(u, used, want, name)
    ensures Norm(u, Trim(u, want)) !in used ==> name == Trim(u, want)
    ensures Norm(u, Trim(u, want)) in used && Norm(u, Trim(u, want) + " (2)") !in used ==> name == Trim(u, want) + " (2)"
  {
    var base := Trim(u, want);
    assert Candidate(base, 2) == base + " (2)" by {
      assert Itoa(2) == "2";
    }
  }
}
