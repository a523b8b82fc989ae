/** The resumable private-mode scanner of internal/daemon/mousemode.go and its caller in
    internal/daemon/daemon.go. */
module MouseModes {
  // The reference is a byte-at-a-time automaton over `CSI ? params (h|l)` (private parameters,
  // section 5.4 of ECMA-48). The index-loop scanner is proved to compute the automaton's modes,
  // and the carried tail to resume it; the automaton then decides exactly which chunkings of a
  // stream agree with one scan of the whole.

  type byte = b: int | 0 <= b < 256

  const ESC: byte := 0x1b
  const BRACKET: byte := 0x5b
  const QUESTION: byte := 0x3f
  const SEMI: byte := 0x3b
  const COLON: byte := 0x3a
  const ZERO: byte := 0x30
  const NINE: byte := 0x39
  const SET: byte := 0x68
  const RESET: byte := 0x6c

  const MAX_MODE_SEQ_LEN: nat := 64

  datatype Modes = Modes(
    x10: bool, normal: bool, button: bool, any: bool, sgr: bool, bracketedPaste: bool, altScreen: bool)

  // ---------------------------------------------------------------- one parameter

  predicate IsDigit(b: byte) { ZERO <= b <= NINE }

  function BeforeColon(p: seq<byte>): seq<byte> {
    if p == [] || p[0] == COLON then [] else [p[0]] + BeforeColon(p[1..])
  }

  function StripZeros(d: seq<byte>): seq<byte> {
    if d == [] || d[0] != ZERO then d else StripZeros(d[1..])
  }

  function Value(d: seq<byte>): int {
    if d == [] then 0 else 10 * Value(d[..|d| - 1]) + (d[|d| - 1] - ZERO)
  }

  predicate AllDigits(d: seq<byte>) { forall i :: 0 <= i < |d| ==> IsDigit(d[i]) }

  // The mode a parameter names, or -1.
  function ModeOf(param: seq<byte>): int {
    var d := BeforeColon(param);
    if d == [] || !AllDigits(d) || |StripZeros(d)| > 4 then -1 else Value(d)
  }

  lemma {:induction false} StripZerosSnoc(d: seq<byte>, c: byte)
    ensures StripZeros(d + [c]) ==
            if StripZeros(d) == [] && c == ZERO then [] else StripZeros(d) + [c]
    decreases |d|
  {
    if d == [] {
      assert d + [c] == [c];
    } else {
      assert (d + [c])[1..] == d[1..] + [c];
      StripZerosSnoc(d[1..], c);
    }
  }

  lemma ValueSnoc(d: seq<byte>, c: byte)
    ensures Value(d + [c]) == 10 * Value(d) + (c - ZERO)
  {
    assert (d + [c])[..|d|] == d;
  }

  lemma {:induction false} ValueBounds(d: seq<byte>)
    requires AllDigits(d)
    ensures Value(d) >= 0
    ensures StripZeros(d) == [] <==> Value(d) == 0
    ensures |StripZeros(d)| <= 4 <==> Value(d) < 10000
    ensures |StripZeros(d)| <= 3 <==> Value(d) < 1000
    ensures |StripZeros(d)| <= 2 <==> Value(d) < 100
    ensures |StripZeros(d)| <= 1 <==> Value(d) < 10
    decreases |d|
  {
    if d != [] {
      var init, c := d[..|d| - 1], d[|d| - 1];
      ValueBounds(init);
      assert d == init + [c];
      StripZerosSnoc(init, c);
      ValueSnoc(init, c);
    }
  }

  lemma {:induction false} BeforeColonOf(d: seq<byte>, rest: seq<byte>)
    requires COLON !in d && (rest == [] || rest[0] == COLON)
    ensures BeforeColon(d + rest) == d
    decreases |d|
  {
    if d == [] {
      assert d + rest == rest;
    } else {
      assert (d + rest)[1..] == d[1..] + rest;
      BeforeColonOf(d[1..], rest);
    }
  }

  // A parameter is a number: leading zeros and sub-parameters never change the mode it names.
  lemma ModeIsNumeric(d: seq<byte>, sub: seq<byte>)
    requires d != [] && AllDigits(d) && (sub == [] || sub[0] == COLON)
    ensures ModeOf(d + sub) == if Value(d) < 10000 then Value(d) else -1
  {
    BeforeColonOf(d, sub);
    ValueBounds(d);
  }

  lemma {:induction false} StripZerosPrefix(d: seq<byte>, k: nat)
    requires k <= |d|
    ensures |StripZeros(d[..k])| <= |StripZeros(d)|
    decreases |d| - k
  {
    if k == |d| {
      assert d[..k] == d;
    } else {
      assert d[..k + 1] == d[..k] + [d[k]];
      StripZerosSnoc(d[..k], d[k]);
      StripZerosPrefix(d, k + 1);
    }
  }

  method ModeNumber(param: seq<byte>) returns (n: int)
    ensures n == ModeOf(param)
  {
    var p := BeforeColon(param);
    if |p| == 0 {
      return -1;
    }
    n := 0;
    var digits := 0;
    for k := 0 to |p|
      invariant AllDigits(p[..k])
      invariant n == Value(p[..k]) && digits == |StripZeros(p[..k])| <= 4
    {
      var c := p[k];
      if c < ZERO || c > NINE {
        return -1;
      }
      assert p[..k + 1] == p[..k] + [c];
      StripZerosSnoc(p[..k], c);
      ValueSnoc(p[..k], c);
      ValueBounds(p[..k]);
      if n > 0 || c != ZERO {
        digits := digits + 1;
      }
      if digits > 4 {
        StripZerosPrefix(p, k + 1);
        return -1;
      }
      n := n * 10 + (c - ZERO);
    }
    assert p[..|p|] == p;
  }

  // ---------------------------------------------------------------- one sequence

  // The flag a mode number names is set; other numbers set nothing.
  function SetMode(m: Modes, n: int, on: bool): Modes {
    Modes(if n == 9 then on else m.x10,
          if n == 1000 then on else m.normal,
          if n == 1002 then on else m.button,
          if n == 1003 then on else m.any,
          if n == 1006 then on else m.sgr,
          if n == 2004 then on else m.bracketedPaste,
          if n in {47, 1047, 1049} then on else m.altScreen)
  }

  // bytes.Split on ';'.
  function Split(run: seq<byte>): (parts: seq<seq<byte>>)
    ensures |parts| >= 1
  {
    if run == [] then [[]]
    else
      var rest := Split(run[1..]);
      if run[0] == SEMI then [[]] + rest else [[run[0]] + rest[0]] + rest[1..]
  }

  function ApplyAll(m: Modes, params: seq<seq<byte>>, on: bool): Modes
    decreases |params|
  {
    if params == [] then m else ApplyAll(SetMode(m, ModeOf(params[0]), on), params[1..], on)
  }

  function ApplyRun(m: Modes, run: seq<byte>, on: bool): Modes {
    ApplyAll(m, Split(run), on)
  }

  // ---------------------------------------------------------------- the automaton

  datatype Place = Ground | Escape | Introducer | Params(run: seq<byte>)

  datatype Auto = Auto(m: Modes, at: Place)

  predicate IsParam(b: byte) { b == SEMI || b == COLON || IsDigit(b) }

  function Step(a: Auto, b: byte): Auto {
    match a.at
    case Ground => if b == ESC then a.(at := Escape) else a
    case Escape =>
      a.(at := if b == BRACKET then Introducer else if b == ESC then Escape else Ground)
    case Introducer =>
      a.(at := if b == QUESTION then Params([]) else if b == ESC then Escape else Ground)
    case Params(run) =>
      if IsParam(b) then a.(at := Params(run + [b]))
      else if b == ESC then a.(at := Escape)
      else if b == SET || b == RESET then Auto(ApplyRun(a.m, run, b == SET), Ground)
      else a.(at := Ground)
  }

  function Run(a: Auto, data: seq<byte>): Auto
    decreases |data|
  {
    if data == [] then a else Run(Step(a, data[0]), data[1..])
  }

  const Off: Modes := Modes(false, false, false, false, false, false, false)

  function PlaceAfter(at: Place, data: seq<byte>): Place {
    Run(Auto(Off, at), data).at
  }

  // What the automaton has read of a sequence it has not finished.
  function Carry(at: Place): seq<byte> {
    match at
    case Ground => []
    case Escape => [ESC]
    case Introducer => [ESC, BRACKET]
    case Params(run) => [ESC, BRACKET, QUESTION] + run
  }

  // An unfinished sequence survives a cut when it fits the bound and holds no sub-parameter.
  predicate Carried(at: Place) {
    |Carry(at)| <= MAX_MODE_SEQ_LEN && COLON !in Carry(at)
  }

  function Tail(at: Place): seq<byte> {
    if Carried(at) then Carry(at) else []
  }

  function Scan(m: Modes, data: seq<byte>): (Modes, seq<byte>) {
    var a := Run(Auto(m, Ground), data);
    (a.m, Tail(a.at))
  }

  lemma {:induction false} RunAppend(a: Auto, x: seq<byte>, y: seq<byte>)
    ensures Run(a, x + y) == Run(Run(a, x), y)
    decreases |x|
  {
    if x == [] {
      assert x + y == y;
    } else {
      assert (x + y)[1..] == x[1..] + y;
      RunAppend(Step(a, x[0]), x[1..], y);
    }
  }

  lemma RunSnoc(a: Auto, x: seq<byte>, b: byte)
    ensures Run(a, x + [b]) == Step(Run(a, x), b)
  {
    RunAppend(a, x, [b]);
    assert [b][1..] == [];
  }

  // Where the automaton stands does not depend on the modes.
  lemma {:induction false} PlaceIgnoresModes(m: Modes, n: Modes, at: Place, x: seq<byte>)
    ensures Run(Auto(m, at), x).at == Run(Auto(n, at), x).at
    decreases |x|
  {
    if x != [] {
      var a, b := Step(Auto(m, at), x[0]), Step(Auto(n, at), x[0]);
      PlaceIgnoresModes(a.m, b.m, a.at, x[1..]);
    }
  }

  predicate WellPlaced(at: Place) {
    at.Params? ==> forall i :: 0 <= i < |at.run| ==> IsParam(at.run[i])
  }

  predicate SuffixOf(c: seq<byte>, x: seq<byte>) {
    |c| <= |x| && x[|x| - |c|..] == c
  }

  lemma CarryStep(a: Auto, x: seq<byte>, b: byte)
    requires WellPlaced(a.at) && SuffixOf(Carry(a.at), x)
    ensures WellPlaced(Step(a, b).at) && SuffixOf(Carry(Step(a, b).at), x + [b])
  {
    var k := |x| - |Carry(a.at)|;
    assert (x + [b])[k..] == Carry(a.at) + [b];
    assert (x + [b])[|x|..] == [b];
  }

  // The unfinished sequence is a suffix of what was read.
  lemma {:induction false} CarryIsSuffix(m: Modes, x: seq<byte>)
    ensures var at := Run(Auto(m, Ground), x).at; WellPlaced(at) && SuffixOf(Carry(at), x)
    decreases |x|
  {
    if x != [] {
      var init, b := x[..|x| - 1], x[|x| - 1];
      assert x == init + [b];
      CarryIsSuffix(m, init);
      RunSnoc(Auto(m, Ground), init, b);
      CarryStep(Run(Auto(m, Ground), init), init, b);
    }
  }

  lemma {:induction false} RunParams(m: Modes, run: seq<byte>, more: seq<byte>)
    requires forall i :: 0 <= i < |more| ==> IsParam(more[i])
    ensures Run(Auto(m, Params(run)), more) == Auto(m, Params(run + more))
    decreases |more|
  {
    if more == [] {
      assert run + more == run;
    } else {
      RunParams(m, run + [more[0]], more[1..]);
      assert run + [more[0]] + more[1..] == run + more;
    }
  }

  // Rescanning the unfinished sequence from scratch puts the automaton back where it was.
  lemma CarryResumes(m: Modes, at: Place)
    requires WellPlaced(at)
    ensures Run(Auto(m, Ground), Carry(at)) == Auto(m, at)
  {
    var a := Auto(m, Ground);
    match at
    case Ground =>
    case Escape => RunSnoc(a, [], ESC); assert [] + [ESC] == [ESC];
    case Introducer =>
      RunSnoc(a, [], ESC);
      assert [] + [ESC] == [ESC] && [ESC] + [BRACKET] == [ESC, BRACKET];
      RunSnoc(a, [ESC], BRACKET);
    case Params(run) =>
      RunSnoc(a, [], ESC);
      assert [] + [ESC] == [ESC] && [ESC] + [BRACKET] == [ESC, BRACKET];
      RunSnoc(a, [ESC], BRACKET);
      assert [ESC, BRACKET] + [QUESTION] == [ESC, BRACKET, QUESTION];
      RunSnoc(a, [ESC, BRACKET], QUESTION);
      RunAppend(a, [ESC, BRACKET, QUESTION], run);
      RunParams(m, [], run);
      assert [] + run == run;
  }

  // ---------------------------------------------------------------- what a sequence sets

  // Decimal digits, with `;` between the numbers.
  function Join(ds: seq<seq<byte>>): seq<byte> {
    if ds == [] then [] else if |ds| == 1 then ds[0] else ds[0] + [0x3b] + Join(ds[1..])
  }

  predicate Numbers(ds: seq<seq<byte>>) { forall i :: 0 <= i < |ds| ==> ds[i] != [] && AllDigits(ds[i]) }

  predicate Has(ds: seq<seq<byte>>, n: int) { exists i :: 0 <= i < |ds| && Value(ds[i]) == n }

  function Decimal(n: nat): seq<byte> {
    if n < 10 then [(0x30 + n) as byte] else Decimal(n / 10) + [(0x30 + n % 10) as byte]
  }

  lemma {:induction false} DecimalValue(n: nat)
    ensures AllDigits(Decimal(n)) && Decimal(n) != [] && Value(Decimal(n)) == n
    decreases n
  {
    var d := Decimal(n);
    if n >= 10 {
      DecimalValue(n / 10);
      assert d[..|d| - 1] == Decimal(n / 10);
    } else {
      assert d[..0] == [];
    }
  }

  lemma {:induction false} SplitOne(d: seq<byte>)
    requires SEMI !in d
    ensures Split(d) == [d]
    decreases |d|
  {
    if d != [] {
      SplitOne(d[1..]);
      assert [d[0]] + d[1..] == d;
    }
  }

  lemma {:induction false} SplitFirst(d: seq<byte>, rest: seq<byte>)
    requires SEMI !in d
    ensures Split(d + [SEMI] + rest) == [d] + Split(rest)
    decreases |d|
  {
    var all := d + [SEMI] + rest;
    if d == [] {
      assert all[1..] == rest;
    } else {
      assert all[1..] == d[1..] + [SEMI] + rest;
      SplitFirst(d[1..], rest);
      assert [d[0]] + d[1..] == d;
      assert ([d[1..]] + Split(rest))[1..] == Split(rest);
    }
  }

  lemma {:induction false} SplitJoin(ds: seq<seq<byte>>)
    requires ds != [] && Numbers(ds)
    ensures Split(Join(ds)) == ds && forall b :: b in Join(ds) ==> IsParam(b)
    decreases |ds|
  {
    assert forall b :: b in ds[0] ==> IsDigit(b);
    if |ds| == 1 {
      SplitOne(ds[0]);
    } else {
      SplitJoin(ds[1..]);
      SplitFirst(ds[0], Join(ds[1..]));
      assert [ds[0]] + ds[1..] == ds;
    }
  }

  function Flag(was: bool, on: bool, named: bool): bool { if named then on else was }

  // The modes the terminal documentation numbers, and no others.
  ghost predicate Switched(m: Modes, r: Modes, ds: seq<seq<byte>>, on: bool) {
    && r.x10 == Flag(m.x10, on, Has(ds, 9))
    && r.normal == Flag(m.normal, on, Has(ds, 1000))
    && r.button == Flag(m.button, on, Has(ds, 1002))
    && r.any == Flag(m.any, on, Has(ds, 1003))
    && r.sgr == Flag(m.sgr, on, Has(ds, 1006))
    && r.bracketedPaste == Flag(m.bracketedPaste, on, Has(ds, 2004))
    && r.altScreen == Flag(m.altScreen, on, Has(ds, 47) || Has(ds, 1047) || Has(ds, 1049))
  }

  lemma HasFirst(ds: seq<seq<byte>>, n: int)
    requires ds != []
    ensures Has(ds, n) <==> Value(ds[0]) == n || Has(ds[1..], n)
  {
    if Has(ds, n) && Value(ds[0]) != n {
      var i :| 0 <= i < |ds| && Value(ds[i]) == n;
      assert ds[1..][i - 1] == ds[i];
    }
    if i :| 0 <= i < |ds[1..]| && Value(ds[1..][i]) == n {
      assert ds[i + 1] == ds[1..][i];
    }
  }

  // What one number switches.
  predicate SwitchedBy(m: Modes, r: Modes, n: int, on: bool) {
    && r.x10 == Flag(m.x10, on, n == 9)
    && r.normal == Flag(m.normal, on, n == 1000)
    && r.button == Flag(m.button, on, n == 1002)
    && r.any == Flag(m.any, on, n == 1003)
    && r.sgr == Flag(m.sgr, on, n == 1006)
    && r.bracketedPaste == Flag(m.bracketedPaste, on, n == 2004)
    && r.altScreen == Flag(m.altScreen, on, n == 47 || n == 1047 || n == 1049)
  }

  lemma OneApplied(m: Modes, d: seq<byte>, on: bool)
    requires d != [] && AllDigits(d)
    ensures SwitchedBy(m, SetMode(m, ModeOf(d), on), Value(d), on)
  {
    assert d + [] == d;
    ModeIsNumeric(d, []);
    hide *;
    SetModeIs(m, Value(d), on);
    SetModeIs(m, -1, on);
    NoneNamed(m, SetMode(m, -1, on), Value(d), on);
  }

  lemma SetModeIs(m: Modes, n: int, on: bool)
    ensures SwitchedBy(m, SetMode(m, n, on), n, on)
  {
  }

  lemma NoneNamed(m: Modes, r: Modes, n: int, on: bool)
    requires SwitchedBy(m, r, -1, on)
    ensures n >= 10000 ==> SwitchedBy(m, r, n, on)
  {
  }

  lemma SwitchedStep(m: Modes, m1: Modes, r: Modes, ds: seq<seq<byte>>, on: bool)
    requires ds != [] && SwitchedBy(m, m1, Value(ds[0]), on) && Switched(m1, r, ds[1..], on)
    ensures Switched(m, r, ds, on)
  {
    hide Has, Value;
    HasFirst(ds, 9);
    HasFirst(ds, 1000);
    HasFirst(ds, 1002);
    HasFirst(ds, 1003);
    HasFirst(ds, 1006);
    HasFirst(ds, 2004);
    HasFirst(ds, 47);
    HasFirst(ds, 1047);
    HasFirst(ds, 1049);
  }

  lemma {:induction false} AllApplied(m: Modes, ds: seq<seq<byte>>, on: bool)
    requires Numbers(ds)
    ensures Switched(m, ApplyAll(m, ds, on), ds, on)
    decreases |ds|
  {
    if ds != [] {
      hide Switched, SwitchedBy, SetMode, ModeOf, Value;
      var m1 := SetMode(m, ModeOf(ds[0]), on);
      OneApplied(m, ds[0], on);
      AllApplied(m1, ds[1..], on);
      SwitchedStep(m, m1, ApplyAll(m, ds, on), ds, on);
    }
  }

  lemma EscapeFromAnywhere(a: Auto, run: seq<byte>)
    requires forall b :: b in run ==> IsParam(b)
    ensures Run(a, [0x1b, 0x5b, 0x3f] + run) == Auto(a.m, Params(run))
  {
    RunAppend(a, [0x1b, 0x5b, 0x3f], run);
    RunSnoc(a, [0x1b, 0x5b], 0x3f);
    RunSnoc(a, [0x1b], 0x5b);
    RunSnoc(a, [], 0x1b);
    var none: seq<byte> := [];
    assert none + [0x1b] == [0x1b] && [0x1b] + [0x5b] == [0x1b, 0x5b as byte] && [0x1b, 0x5b] + [0x3f] == [0x1b, 0x5b, 0x3f as byte];
    RunParams(a.m, [], run);
    assert none + run == run;
  }

  // Wherever it comes in a stream, also inside another sequence, `ESC [ ?`, numbers and `h` sets
  // exactly the flags the numbers name, `l` clears them, and any other byte changes nothing.
  lemma SequenceSwitches(m: Modes, x: seq<byte>, ds: seq<seq<byte>>, final: byte)
    requires ds != [] && Numbers(ds)
    ensures var before, after := Scan(m, x).0, Scan(m, x + ([0x1b, 0x5b, 0x3f] + Join(ds)) + [final]).0;
            if final == 0x68 || final == 0x6c then Switched(before, after, ds, final == 0x68) else after == before
  {
    var a, q := Run(Auto(m, Ground), x), [0x1b, 0x5b, 0x3f] + Join(ds);
    SplitJoin(ds);
    EscapeFromAnywhere(a, Join(ds));
    RunAppend(Auto(m, Ground), x, q);
    RunSnoc(Auto(m, Ground), x + q, final);
    AllApplied(a.m, ds, final == 0x68);
  }

  // And nothing else changes a mode: only an `h` or `l` that ends such a sequence.
  lemma OnlySequencesSwitch(m: Modes, x: seq<byte>, b: byte)
    requires Scan(m, x + [b]).0 != Scan(m, x).0
    ensures b == 0x68 || b == 0x6c
    ensures exists run: seq<byte> :: SuffixOf([0x1b, 0x5b, 0x3f] + run, x) && forall c :: c in run ==> IsParam(c)
  {
    var at := Run(Auto(m, Ground), x).at;
    RunSnoc(Auto(m, Ground), x, b);
    CarryIsSuffix(m, x);
    assert SuffixOf([0x1b, 0x5b, 0x3f] + at.run, x);
  }

  // ---------------------------------------------------------------- chunking

  // A stream may be cut after `x` without the scanner noticing.
  predicate CutSafe(x: seq<byte>) {
    Carried(PlaceAfter(Ground, x))
  }

  lemma CutSafePlace(m: Modes, x: seq<byte>)
    ensures CutSafe(x) <==> Carried(Run(Auto(m, Ground), x).at)
  {
    PlaceIgnoresModes(m, Off, Ground, x);
  }

  lemma SafeCutResumes(m: Modes, x: seq<byte>, y: seq<byte>)
    requires CutSafe(x)
    ensures var (m1, tail) := Scan(m, x); Scan(m1, tail + y) == Scan(m, x + y)
  {
    var a := Run(Auto(m, Ground), x);
    CutSafePlace(m, x);
    CarryIsSuffix(m, x);
    CarryResumes(a.m, a.at);
    RunAppend(Auto(a.m, Ground), Carry(a.at), y);
    RunAppend(Auto(m, Ground), x, y);
  }

  lemma {:induction false} SplitSnoc(run: seq<byte>, b: byte)
    requires b != SEMI
    ensures Split(run + [SEMI] + [b]) == Split(run) + [[b]]
    decreases |run|
  {
    if run == [] {
      var one, two := [b], [SEMI, b];
      assert run + [SEMI] + [b] == two;
      assert one[1..] == [] && two[1..] == one;
      var none: seq<byte> := [];
      assert Split(none) == [[]];
      assert [b] + Split(none)[0] == [b] && [[b]] + Split(none)[1..] == [[b]];
      assert Split(one) == [[b]];
      assert Split(two) == [[]] + Split(one);
      assert Split(run) == Split(none);
    } else {
      var w := run + [SEMI] + [b];
      assert w[1..] == run[1..] + [SEMI] + [b];
      SplitSnoc(run[1..], b);
    }
  }

  lemma {:induction false} ApplySnoc(m: Modes, params: seq<seq<byte>>, p: seq<byte>, on: bool)
    ensures ApplyAll(m, params + [p], on) == SetMode(ApplyAll(m, params, on), ModeOf(p), on)
    decreases |params|
  {
    if params == [] {
      assert params + [p] == [p];
    } else {
      assert (params + [p])[1..] == params[1..] + [p];
      ApplySnoc(SetMode(m, ModeOf(params[0]), on), params[1..], p, on);
    }
  }

  lemma NineIsX10()
    ensures ModeOf([NINE]) == 9
  {
    var p := [NINE];
    assert BeforeColon(p[1..]) == [];
    assert BeforeColon(p) == p;
    assert Value(p) == 9 by { assert p[..0] == []; }
  }

  // Completing an unfinished run with `;9` and a final byte sets or resets mode 9.
  lemma CompleteWithNine(m: Modes, run: seq<byte>, on: bool)
    ensures Run(Auto(m, Params(run)), [SEMI, NINE, if on then SET else RESET]).m.x10 == on
  {
    var final := if on then SET else RESET;
    var y := [SEMI, NINE, final];
    assert y == [SEMI] + [NINE] + [final];
    RunSnoc(Auto(m, Params(run)), [SEMI] + [NINE], final);
    RunParams(m, run, [SEMI] + [NINE]);
    assert run + ([SEMI] + [NINE]) == run + [SEMI] + [NINE];
    SplitSnoc(run, NINE);
    ApplySnoc(m, Split(run), [NINE], on);
    NineIsX10();
  }

  lemma {:induction false} NoEscapeStaysGround(m: Modes, y: seq<byte>)
    requires ESC !in y
    ensures Run(Auto(m, Ground), y) == Auto(m, Ground)
    decreases |y|
  {
    if y != [] {
      assert ESC !in y[1..];
      NoEscapeStaysGround(m, y[1..]);
    }
  }

  // One cut: every continuation scans as if the stream had not been cut, if and only if the
  // sequence the cut falls inside is short enough and holds no sub-parameter.
  lemma CutSafeIff(m: Modes, x: seq<byte>)
    ensures (forall y: seq<byte> :: Scan(Scan(m, x).0, Scan(m, x).1 + y).0 == Scan(m, x + y).0)
            <==> CutSafe(x)
  {
    if CutSafe(x) {
      forall y: seq<byte> ensures Scan(Scan(m, x).0, Scan(m, x).1 + y).0 == Scan(m, x + y).0 {
        SafeCutResumes(m, x, y);
      }
    } else {
      CutSafePlace(m, x);
      var a := Run(Auto(m, Ground), x);
      var on := !a.m.x10;
      var y := [SEMI, NINE, if on then SET else RESET];
      CompleteWithNine(a.m, a.at.run, on);
      RunAppend(Auto(m, Ground), x, y);
      assert Scan(m, x).1 + y == y;
      NoEscapeStaysGround(a.m, y);
      assert Scan(Scan(m, x).0, Scan(m, x).1 + y).0 != Scan(m, x + y).0;
    }
  }

  function Concat(chunks: seq<seq<byte>>): seq<byte> {
    if chunks == [] then [] else Concat(chunks[..|chunks| - 1]) + chunks[|chunks| - 1]
  }

  // The pane's loop: each chunk is scanned with the carried tail in front of it.
  function Fold(m: Modes, chunks: seq<seq<byte>>): (Modes, seq<byte>) {
    if chunks == [] then (m, [])
    else
      var (m1, tail) := Fold(m, chunks[..|chunks| - 1]);
      Scan(m1, tail + chunks[|chunks| - 1])
  }

  predicate SafelyCut(chunks: seq<seq<byte>>) {
    forall k :: 0 < k < |chunks| ==> CutSafe(Concat(chunks[..k]))
  }

  lemma SafelyCutInit(chunks: seq<seq<byte>>)
    requires chunks != [] && SafelyCut(chunks)
    ensures SafelyCut(chunks[..|chunks| - 1])
    ensures |chunks| > 1 ==> CutSafe(Concat(chunks[..|chunks| - 1]))
  {
    var init := chunks[..|chunks| - 1];
    forall k | 0 < k < |init| ensures CutSafe(Concat(init[..k])) {
      assert init[..k] == chunks[..k];
    }
  }

  // Every chunking whose cuts are safe yields the modes and the tail of one scan of the stream.
  lemma {:induction false} ChunksAgreeWithWhole(m: Modes, chunks: seq<seq<byte>>)
    requires SafelyCut(chunks)
    ensures Fold(m, chunks) == Scan(m, Concat(chunks))
    decreases |chunks|
  {
    if chunks != [] {
      var init, last := chunks[..|chunks| - 1], chunks[|chunks| - 1];
      SafelyCutInit(chunks);
      ChunksAgreeWithWhole(m, init);
      if init == [] {
        assert [] + last == last;
      } else {
        SafeCutResumes(m, Concat(init), last);
      }
    }
  }

  // ---------------------------------------------------------------- the index loops

  predicate IntroAt(data: seq<byte>, i: nat) {
    i + 2 < |data| && data[i] == ESC && data[i + 1] == BRACKET && data[i + 2] == QUESTION
  }

  // bytes.Contains(data, "ESC [ ?").
  predicate ContainsIntro(data: seq<byte>) {
    exists i :: 0 <= i < |data| && IntroAt(data, i)
  }

  // The cheap gate skips nothing: without an introducer the automaton applies no mode.
  lemma {:induction false} NoIntroNoChange(m: Modes, data: seq<byte>)
    requires !ContainsIntro(data)
    ensures Run(Auto(m, Ground), data).m == m
    decreases |data|
  {
    if data != [] {
      var init, b := data[..|data| - 1], data[|data| - 1];
      assert data == init + [b];
      forall i | 0 <= i < |init| ensures !IntroAt(init, i) {
        assert !IntroAt(data, i);
      }
      NoIntroNoChange(m, init);
      RunSnoc(Auto(m, Ground), init, b);
      if Run(Auto(m, Ground), init).at.Params? {
        ParamsMeanIntro(m, init);
      }
    }
  }

  lemma ParamsMeanIntro(m: Modes, x: seq<byte>)
    requires Run(Auto(m, Ground), x).at.Params?
    ensures ContainsIntro(x)
  {
    CarryIsSuffix(m, x);
    var k := |x| - |Carry(Run(Auto(m, Ground), x).at)|;
    assert x[k..][0] == ESC && x[k..][1] == BRACKET && x[k..][2] == QUESTION;
    assert IntroAt(x, k);
  }

  // Stepping past an ESC that heads no introducer changes no mode.
  lemma SkipEscape(m: Modes, rest: seq<byte>)
    requires rest != [] && rest[0] == ESC && !IntroAt(rest, 0)
    ensures Run(Auto(m, Ground), rest).m == Run(Auto(m, Ground), rest[1..]).m
  {
    var a, tail := Auto(m, Ground), rest[1..];
    if |rest| == 1 {
    } else if rest[1] != BRACKET {
      assert Step(Step(a, ESC), rest[1]) == Step(a, rest[1]);
      assert Run(Step(a, ESC), tail) == Run(Step(Step(a, ESC), rest[1]), tail[1..]);
    } else if |rest| == 2 {
      assert tail[1..] == [];
      assert Run(Step(a, ESC), tail) == Step(Step(a, ESC), BRACKET);
      assert Run(a, tail) == Step(a, BRACKET);
    } else {
      var a2 := Step(Step(a, ESC), BRACKET);
      assert Step(a2, rest[2]) == Step(Step(a, BRACKET), rest[2]);
      assert tail[1..][0] == rest[2];
      assert Run(a2, tail[1..]) == Run(Step(a2, rest[2]), tail[1..][1..]);
      assert Run(Step(a, BRACKET), tail[1..]) == Run(Step(Step(a, BRACKET), rest[2]), tail[1..][1..]);
    }
  }

  lemma EnterParams(m: Modes, rest: seq<byte>)
    requires IntroAt(rest, 0)
    ensures Run(Auto(m, Ground), rest) == Run(Auto(m, Params([])), rest[3..])
  {
    var a := Auto(m, Ground);
    assert rest == [ESC, BRACKET, QUESTION] + rest[3..];
    RunAppend(a, [ESC, BRACKET, QUESTION], rest[3..]);
    CarryResumes(m, Params([]));
    assert [ESC, BRACKET, QUESTION] + [] == [ESC, BRACKET, QUESTION];
  }

  // One whole parameter run, up to but not including the byte that ends it.
  lemma ReadParams(m: Modes, rest: seq<byte>, n: nat)
    requires n <= |rest| && forall i :: 0 <= i < n ==> IsParam(rest[i])
    ensures Run(Auto(m, Params([])), rest) == Run(Auto(m, Params(rest[..n])), rest[n..])
  {
    assert rest == rest[..n] + rest[n..];
    RunAppend(Auto(m, Params([])), rest[..n], rest[n..]);
    RunParams(m, [], rest[..n]);
    assert [] + rest[..n] == rest[..n];
  }

  // The modes still to come out of data[i..].
  function Rest(m: Modes, data: seq<byte>, i: nat): Modes
    requires i <= |data|
  {
    Run(Auto(m, Ground), data[i..]).m
  }

  lemma RestPlain(m: Modes, data: seq<byte>, i: nat)
    requires i < |data| && data[i] != ESC
    ensures Rest(m, data, i) == Rest(m, data, i + 1)
  {
    assert data[i..][1..] == data[i + 1..];
  }

  lemma RestEscape(m: Modes, data: seq<byte>, i: nat)
    requires i < |data| && data[i] == ESC && !IntroAt(data, i)
    ensures Rest(m, data, i) == Rest(m, data, i + 1)
  {
    SkipEscape(m, data[i..]);
    assert data[i..][1..] == data[i + 1..];
  }

  lemma RestParams(m: Modes, data: seq<byte>, i: nat, j: nat)
    requires IntroAt(data, i) && i + 3 <= j <= |data|
    requires forall k :: i + 3 <= k < j ==> IsParam(data[k])
    ensures Rest(m, data, i) == Run(Auto(m, Params(data[i + 3..j])), data[j..]).m
  {
    EnterParams(m, data[i..]);
    assert data[i..][3..] == data[i + 3..];
    ReadParams(m, data[i + 3..], j - (i + 3));
    assert data[i + 3..][..j - (i + 3)] == data[i + 3..j];
    assert data[i + 3..][j - (i + 3)..] == data[j..];
  }

  lemma RestSequence(m: Modes, data: seq<byte>, i: nat, j: nat)
    requires IntroAt(data, i) && i + 3 <= j <= |data|
    requires forall k :: i + 3 <= k < j ==> IsParam(data[k])
    requires j < |data| ==> !IsParam(data[j])
    ensures j == |data| ==> Rest(m, data, i) == m
    ensures j < |data| ==>
              var m1 := if data[j] == SET || data[j] == RESET
                        then ApplyRun(m, data[i + 3..j], data[j] == SET) else m;
              Rest(m, data, i) == Rest(m1, data, if data[j] == ESC then j else j + 1)
  {
    RestParams(m, data, i, j);
    if j < |data| {
      assert data[j..][1..] == data[j + 1..];
    }
  }

  method ScanMouseModes(m0: Modes, data: seq<byte>) returns (m: Modes, tail: seq<byte>)
    ensures (m, tail) == Scan(m0, data)
  {
    m := m0;
    tail := IncompleteModeSeq(data);
    PlaceIgnoresModes(m0, Off, Ground, data);
    if !ContainsIntro(data) {
      NoIntroNoChange(m0, data);
      return;
    }
    ghost var whole := Rest(m0, data, 0);
    assert data[0..] == data;
    var i := 0;
    while i < |data|
      invariant 0 <= i <= |data|
      invariant whole == Rest(m, data, i)
    {
      if data[i] != ESC {
        RestPlain(m, data, i);
        i := i + 1;
        continue;
      }
      if i + 2 >= |data| || data[i + 1] != BRACKET || data[i + 2] != QUESTION {
        RestEscape(m, data, i);
        i := i + 1;
        continue;
      }
      var j := i + 3;
      var paramStart := j;
      while j < |data| && IsParam(data[j])
        invariant paramStart <= j <= |data|
        invariant forall k :: paramStart <= k < j ==> IsParam(data[k])
      {
        j := j + 1;
      }
      RestSequence(m, data, i, j);
      if j >= |data| {
        return;
      }
      var final := data[j];
      if final == SET || final == RESET {
        m := ApplyParams(m, data[paramStart..j], final == SET);
      }
      if data[j] == ESC {
        i := j;
        continue;
      }
      i := j + 1;
    }
  }

  method ApplyParams(m0: Modes, run: seq<byte>, on: bool) returns (m: Modes)
    ensures m == ApplyRun(m0, run, on)
  {
    m := m0;
    var params := Split(run);
    for k := 0 to |params|
      invariant ApplyRun(m0, run, on) == ApplyAll(m, params[k..], on)
    {
      var n := ModeNumber(params[k]);
      m := SwitchMode(m, n, on);
    }
  }

  method SwitchMode(m0: Modes, n: int, on: bool) returns (m: Modes)
    ensures m == SetMode(m0, n, on)
  {
    m := m0;
    if n == 9 {
      m := m.(x10 := on);
    } else if n == 1000 {
      m := m.(normal := on);
    } else if n == 1002 {
      m := m.(button := on);
    } else if n == 1003 {
      m := m.(any := on);
    } else if n == 1006 {
      m := m.(sgr := on);
    } else if n == 2004 {
      m := m.(bracketedPaste := on);
    } else if n == 47 || n == 1047 || n == 1049 {
      m := m.(altScreen := on);
    }
  }

  // After an ESC the automaton stands at Escape whatever it was reading.
  lemma EscapeRestarts(x: seq<byte>, y: seq<byte>)
    ensures PlaceAfter(Ground, x + [ESC] + y) == PlaceAfter(Escape, y)
  {
    RunAppend(Auto(Off, Ground), x + [ESC], y);
    RunSnoc(Auto(Off, Ground), x, ESC);
    var a := Run(Auto(Off, Ground), x + [ESC]);
    PlaceIgnoresModes(a.m, Off, Escape, y);
  }

  // Bytes without an ESC never leave Ground, nor a parameter run that holds a colon except
  // for Ground: what follows a broken prefix carries nothing.
  lemma {:induction false} BrokenCarriesNothing(at: Place, y: seq<byte>)
    requires ESC !in y && (at.Ground? || (at.Params? && COLON in at.run))
    ensures Tail(PlaceAfter(at, y)) == []
    decreases |y|
  {
    if y == [] {
      if at.Params? {
        var i :| 0 <= i < |at.run| && at.run[i] == COLON;
        assert Carry(at)[i + 3] == COLON;
      }
    } else {
      var a := Step(Auto(Off, at), y[0]);
      assert ESC !in y[1..];
      PlaceIgnoresModes(a.m, Off, a.at, y[1..]);
      if a.at.Params? {
        assert a.at.run[..|at.run|] == at.run;
      }
      BrokenCarriesNothing(a.at, y[1..]);
    }
  }

  // The place reached from Escape by the first k bytes of a prefix that is still well formed.
  function PrefixPlace(y: seq<byte>): Place {
    if |y| == 0 then Escape else if |y| == 1 then Introducer else Params(y[2..])
  }

  predicate PrefixByte(k: nat, b: byte) {
    if k == 1 then b == BRACKET
    else if k == 2 then b == QUESTION
    else b == SEMI || IsDigit(b)
  }

  predicate GoodPrefix(rest: seq<byte>, k: nat)
    requires 1 <= k <= |rest|
  {
    && rest[0] == ESC
    && PlaceAfter(Escape, rest[1..k]) == PrefixPlace(rest[1..k])
    && (forall i :: 1 <= i < k ==> PrefixByte(i, rest[i]))
  }

  lemma GoodPrefixCarries(rest: seq<byte>)
    requires 1 <= |rest| <= MAX_MODE_SEQ_LEN && GoodPrefix(rest, |rest|)
    ensures Tail(PlaceAfter(Escape, rest[1..])) == rest
  {
    assert rest[1..|rest|] == rest[1..];
    assert Carry(PrefixPlace(rest[1..])) == rest;
  }

  lemma ExtendPrefix(rest: seq<byte>, k: nat)
    requires 1 <= k < |rest| && GoodPrefix(rest, k) && PrefixByte(k, rest[k])
    ensures GoodPrefix(rest, k + 1)
  {
    assert rest[1..k + 1] == rest[1..k] + [rest[k]];
    RunSnoc(Auto(Off, Escape), rest[1..k], rest[k]);
    PlaceIgnoresModes(Run(Auto(Off, Escape), rest[1..k]).m, Off, PrefixPlace(rest[1..k]), [rest[k]]);
  }

  method IncompleteModeSeq(data: seq<byte>) returns (tail: seq<byte>)
    ensures tail == Tail(PlaceAfter(Ground, data))
  {
    var start := |data| - MAX_MODE_SEQ_LEN;
    if start < 0 {
      start := 0;
    }
    var esc := |data| - 1;
    while esc >= start && data[esc] != ESC
      invariant start - 1 <= esc < |data|
      invariant forall k :: esc < k < |data| ==> data[k] != ESC
    {
      esc := esc - 1;
    }
    if esc < start {
      NoRecentEscape(data, start);
      return [];
    }
    var rest := data[esc..];
    ghost var place := PlaceAfter(Ground, data);
    assert place == PlaceAfter(Escape, rest[1..]) by {
      assert data == data[..esc] + [ESC] + rest[1..];
      EscapeRestarts(data[..esc], rest[1..]);
    }
    var k := 1;
    while k < |rest|
      invariant 1 <= k <= |rest|
      invariant GoodPrefix(rest, k)
    {
      if !PrefixByte(k, rest[k]) {
        BrokenPrefix(rest, k);
        return [];
      }
      ExtendPrefix(rest, k);
      k := k + 1;
    }
    GoodPrefixCarries(rest);
    return rest;
  }

  // An unfinished sequence starts with an ESC, so none in the window means none to carry.
  lemma NoRecentEscape(data: seq<byte>, start: nat)
    requires start <= |data| && (start == 0 || |data| - start == MAX_MODE_SEQ_LEN)
    requires forall k :: start <= k < |data| ==> data[k] != ESC
    ensures Tail(PlaceAfter(Ground, data)) == []
  {
    var at := PlaceAfter(Ground, data);
    CarryIsSuffix(Off, data);
    var k := |data| - |Carry(at)|;
    if k < |data| {
      assert data[k..][0] == ESC;
    }
  }

  lemma BrokenPrefix(rest: seq<byte>, k: nat)
    requires 1 <= k < |rest| && !PrefixByte(k, rest[k])
    requires forall i :: 1 <= i < |rest| ==> rest[i] != ESC
    requires PlaceAfter(Escape, rest[1..k]) == PrefixPlace(rest[1..k])
    ensures Tail(PlaceAfter(Escape, rest[1..])) == []
  {
    var init, b, more := rest[1..k], rest[k], rest[k + 1..];
    assert rest[1..] == (init + [b]) + more;
    RunAppend(Auto(Off, Escape), init + [b], more);
    RunSnoc(Auto(Off, Escape), init, b);
    var a := Run(Auto(Off, Escape), init + [b]);
    PlaceIgnoresModes(a.m, Off, a.at, more);
    assert a.at.Ground? || (a.at.Params? && a.at.run[|a.at.run| - 1] == COLON);
    BrokenCarriesNothing(a.at, more);
  }

  // ---------------------------------------------------------------- the pane

  class Pane {
    var mouseModes: Modes
    var modeScanTail: seq<byte>

    constructor ()
      ensures mouseModes == Off && modeScanTail == []
    {
      mouseModes, modeScanTail := Off, [];
    }

    // The scanning part of flushPaneOutputGeneration: one output chunk.
    method FlushOutput(data: seq<byte>)
      modifies this
      ensures (mouseModes, modeScanTail) == Scan(old(mouseModes), old(modeScanTail) + data)
    {
      var scanData := data;
      if |modeScanTail| > 0 {
        scanData := modeScanTail + data;
      } else {
        assert modeScanTail + data == data;
      }
      mouseModes, modeScanTail := ScanMouseModes(mouseModes, scanData);
    }

    // A whole stream, chunk by chunk: with safe cuts the pane ends where one scan would.
    method FlushAll(chunks: seq<seq<byte>>)
      requires modeScanTail == [] && SafelyCut(chunks)
      modifies this
      ensures (mouseModes, modeScanTail) == Scan(old(mouseModes), Concat(chunks))
    {
      for k := 0 to |chunks|
        invariant (mouseModes, modeScanTail) == Fold(old(mouseModes), chunks[..k])
      {
        assert chunks[..k + 1][..k] == chunks[..k];
        FlushOutput(chunks[k]);
      }
      assert chunks[..|chunks|] == chunks;
      ChunksAgreeWithWhole(old(mouseModes), chunks);
    }
  }
}
