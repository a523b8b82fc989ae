/** The token scanner of internal/claudetoken/capture.go: a credential is read off a stream that
    arrives in chunks, and accepted only once the stream proves where it ends. Escape sequences
    are taken to be stripped already. */
module TokenCapture {
  import opened Common

  const PREFIX := "sk-ant-"
  const MIN_RUN := 20

  predicate TokenChar(c: char) {
    'A' <= c <= 'Z' || 'a' <= c <= 'z' || '0' <= c <= '9' || c == '_' || c == '-'
  }

  // ---------------------------------------------------------------- the pattern, as a relation

  // s[i..j] is matched by sk-ant-[A-Za-z0-9_\-]{20,}
  ghost predicate Matches(s: string, i: int, j: int) {
    && 0 <= i && i + |PREFIX| + MIN_RUN <= j <= |s|
    && s[i..i + |PREFIX|] == PREFIX
    && forall k :: i + |PREFIX| <= k < j ==> TokenChar(s[k])
  }

  // The leftmost match, and of those that start there the longest.
  ghost predicate IsFirstMatch(s: string, i: int, j: int) {
    && Matches(s, i, j)
    && (forall a, b :: a < i ==> !Matches(s, a, b))
    && (forall b :: b > j ==> !Matches(s, i, b))
  }

  // ---------------------------------------------------------------- the search

  // The end of the run of token characters from j on.
  function RunEnd(s: string, j: nat): (e: nat)
    requires j <= |s|
    ensures j <= e <= |s| && (e < |s| ==> !TokenChar(s[e]))
    ensures forall k :: j <= k < e ==> TokenChar(s[k])
    decreases |s| - j
  {
    if j < |s| && TokenChar(s[j]) then RunEnd(s, j + 1) else j
  }

  predicate StartsAt(s: string, i: nat) {
    && i + |PREFIX| <= |s| && s[i..i + |PREFIX|] == PREFIX
    && RunEnd(s, i + |PREFIX|) >= i + |PREFIX| + MIN_RUN
  }

  function FindFrom(s: string, i: nat): Option<(nat, nat)>
    decreases |s| - i
  {
    if i >= |s| then None
    else if StartsAt(s, i) then Some((i, RunEnd(s, i + |PREFIX|)))
    else FindFrom(s, i + 1)
  }

  function Find(s: string): Option<(nat, nat)> { FindFrom(s, 0) }

  lemma StartsIffMatches(s: string, i: nat)
    ensures StartsAt(s, i) ==> Matches(s, i, RunEnd(s, i + |PREFIX|))
    ensures (exists j :: Matches(s, i, j)) ==> StartsAt(s, i)
    ensures StartsAt(s, i) ==> forall b :: b > RunEnd(s, i + |PREFIX|) ==> !Matches(s, i, b)
  {
    if j :| Matches(s, i, j) {
      var e := RunEnd(s, i + |PREFIX|);
      assert e < |s| ==> !TokenChar(s[e]);
    }
  }

  // Nothing matches from a place before `to`, `i` onwards.
  ghost predicate NoneBetween(s: string, i: nat, to: nat) {
    forall a, b :: i <= a < to ==> !Matches(s, a, b)
  }

  lemma NoneStarting(s: string, i: nat, to: nat)
    requires i < to && !StartsAt(s, i) && NoneBetween(s, i + 1, to)
    ensures NoneBetween(s, i, to)
  {
    StartsIffMatches(s, i);
    hide Matches;
  }

  lemma {:induction false} FindFromFinds(s: string, i: nat)
    ensures FindFrom(s, i).None? ==> NoneBetween(s, i, |s|)
    ensures FindFrom(s, i).Some? ==>
              var at, end := FindFrom(s, i).value.0, FindFrom(s, i).value.1;
              i <= at < |s| && StartsAt(s, at) && end == RunEnd(s, at + |PREFIX|) && NoneBetween(s, i, at)
    decreases |s| - i
  {
    hide Matches, StartsAt, RunEnd;
    if i < |s| && !StartsAt(s, i) {
      FindFromFinds(s, i + 1);
      var to := if FindFrom(s, i + 1).None? then |s| else FindFrom(s, i + 1).value.0;
      NoneStarting(s, i, to);
    }
  }

  // The search is the leftmost-longest match of the pattern, and finds one if there is one.
  lemma FindIsFirstMatch(s: string)
    ensures Find(s).None? ==> forall a, b :: !Matches(s, a, b)
    ensures Find(s).Some? ==> IsFirstMatch(s, Find(s).value.0, Find(s).value.1)
  {
    FindFromFinds(s, 0);
    match Find(s)
    case None =>
    case Some((i, j)) => StartsIffMatches(s, i);
  }

  // ---------------------------------------------------------------- completeToken

  function CompleteToken(s: string, atEOF: bool): Option<string> {
    match Find(s)
    case None => None
    case Some((i, j)) =>
      if i <= j <= |s| && (j < |s| || atEOF) then Some(s[i..j]) else None
  }

  // What is accepted is exactly the first match, once it cannot grow any more.
  lemma AcceptedIff(s: string, atEOF: bool, t: string)
    ensures CompleteToken(s, atEOF) == Some(t) <==>
            exists i, j :: IsFirstMatch(s, i, j) && t == s[i..j] && (j < |s| || atEOF)
  {
    FindIsFirstMatch(s);
    if i, j :| IsFirstMatch(s, i, j) && t == s[i..j] && (j < |s| || atEOF) {
      var (a, b) := Find(s).value;
      assert Matches(s, i, j) && Matches(s, a, b);
      assert a == i && b == j;
    }
  }

  lemma {:induction false} RunEndStable(s: string, x: string, j: nat)
    requires j <= |s| && RunEnd(s, j) < |s|
    ensures RunEnd(s + x, j) == RunEnd(s, j)
    decreases |s| - j
  {
    if TokenChar(s[j]) {
      RunEndStable(s, x, j + 1);
    }
  }

  lemma {:induction false} RunEndMonotone(s: string, j: nat, k: nat)
    requires j <= k <= |s|
    ensures RunEnd(s, j) <= RunEnd(s, k) || RunEnd(s, j) >= k
    ensures RunEnd(s, j) >= k ==> RunEnd(s, j) == RunEnd(s, k)
    decreases k - j
  {
    if j < k && TokenChar(s[j]) {
      RunEndMonotone(s, j + 1, k);
    }
  }

  // Nothing that arrives later makes an earlier match: a start to the left of a finished match
  // can neither appear nor disappear.
  lemma EarlierStartsStable(s: string, x: string, i: nat, a: nat)
    requires StartsAt(s, i) && RunEnd(s, i + |PREFIX|) < |s| && a <= i
    ensures StartsAt(s + x, a) <==> StartsAt(s, a)
    ensures StartsAt(s, a) ==> RunEnd(s + x, a + |PREFIX|) == RunEnd(s, a + |PREFIX|)
  {
    var p := a + |PREFIX|;
    assert (s + x)[a..p] == s[a..p];
    RunEndMonotone(s, p, i + |PREFIX|);
    RunEndStable(s, x, p);
  }

  lemma {:induction false} FindStable(s: string, x: string, k: nat, i: nat)
    requires StartsAt(s, i) && RunEnd(s, i + |PREFIX|) < |s|
    requires k <= i && (forall a :: k <= a < i ==> !StartsAt(s, a))
    ensures FindFrom(s + x, k) == Some((i, RunEnd(s, i + |PREFIX|)))
    decreases i - k
  {
    EarlierStartsStable(s, x, i, k);
    if k < i {
      FindStable(s, x, k + 1, i);
    }
  }

  // An accepted token is final: no continuation of the stream changes the answer.
  lemma AcceptedIsFinal(s: string, x: string, atEOF: bool)
    requires CompleteToken(s, false).Some?
    ensures CompleteToken(s + x, atEOF) == CompleteToken(s, false)
  {
    FindFromFinds(s, 0);
    var (i, j) := Find(s).value;
    forall a: nat | a < i ensures !StartsAt(s, a) {
      StartsIffMatches(s, a);
    }
    FindStable(s, x, 0, i);
    assert (s + x)[i..j] == s[i..j];
  }

  // ---------------------------------------------------------------- the read loop

  function Concat(chunks: seq<string>): string {
    if chunks == [] then "" else Concat(chunks[..|chunks| - 1]) + chunks[|chunks| - 1]
  }

  lemma {:induction false} ConcatPrefix(chunks: seq<string>, k: nat)
    requires k <= |chunks|
    ensures Concat(chunks[..k]) <= Concat(chunks)
    decreases |chunks|
  {
    if k == |chunks| {
      assert chunks[..k] == chunks;
    } else {
      var n := |chunks| - 1;
      ConcatPrefix(chunks[..n], k);
      assert chunks[..n][..k] == chunks[..k];
    }
  }

  // take: asked after every read, it keeps the first answer it gets.
  method Take(token: Option<string>, scan: string, atEOF: bool) returns (r: Option<string>)
    ensures r == if token.Some? then token else CompleteToken(scan, atEOF)
  {
    if token.Some? {
      return token;
    }
    return CompleteToken(scan, atEOF);
  }

  // However the stream is cut into reads, the token taken is the whole stream's.
  method ReadLoop(chunks: seq<string>) returns (token: Option<string>)
    ensures token == CompleteToken(Concat(chunks), true)
  {
    var scan := "";
    token := None;
    for k := 0 to |chunks|
      invariant scan == Concat(chunks[..k])
      invariant token.Some? ==> token == CompleteToken(scan, false)
    {
      ghost var before := scan;
      scan := scan + chunks[k];
      assert chunks[..k + 1][..k] == chunks[..k];
      if token.Some? {
        AcceptedIsFinal(before, chunks[k], false);
      }
      token := Take(token, scan, false);
    }
    assert chunks[..|chunks|] == chunks;
    if token.Some? {
      AcceptedIsFinal(scan, "", true);
      assert scan + "" == scan;
    }
    token := Take(token, scan, true);
  }

  // No answer given along the way differs from the final one.
  lemma EveryAnswerIsFinal(chunks: seq<string>, k: nat)
    requires k <= |chunks| && CompleteToken(Concat(chunks[..k]), false).Some?
    ensures CompleteToken(Concat(chunks[..k]), false) == CompleteToken(Concat(chunks), true)
  {
    var s, whole := Concat(chunks[..k]), Concat(chunks);
    ConcatPrefix(chunks, k);
    assert s + whole[|s|..] == whole;
    hide *;
    AcceptedIsFinal(s, whole[|s|..], true);
  }
}
