/** The text sanitizers of internal/claudesessions/claudesessions.go, on sequences of runes. What
    counts as white space, control or format character is a parameter.

    Both sanitizers truncate and then append an ellipsis, so a result may be one rune longer
    than the cap; each is nevertheless proved to leave its own results unchanged. */
module Sanitize {
  import opened ProjectNames

  const MAX_TITLE := 240
  const MAX_PROMPT := 1200
  const ELLIPSIS := '\U{2026}'

  datatype Tables = Tables(text: Text, control: char -> bool, format: char -> bool)

  // What the tables say about the few runes the sanitizers name.
  ghost predicate ValidTables(u: Tables) {
    && u.control('\n') && u.control('\r') && u.control('\t')
    && u.text.space(' ') && !u.control(' ') && !u.format(' ')
    && !u.text.space(ELLIPSIS) && !u.control(ELLIPSIS) && !u.format(ELLIPSIS)
  }

  predicate Dropped(u: Tables, c: char) { u.control(c) || u.format(c) }

  // No control and no format character.
  ghost predicate Clean(u: Tables, s: string) { forall i :: 0 <= i < |s| ==> !Dropped(u, s[i]) }

  // The same, line breaks aside.
  ghost predicate CleanLines(u: Tables, s: string) {
    forall i :: 0 <= i < |s| ==> s[i] == '\n' || !Dropped(u, s[i])
  }

  // ---------------------------------------------------------------- titles

  function MapTitle(u: Tables, s: string): string {
    if s == "" then ""
    else
      (if s[0] == '\n' || s[0] == '\r' || s[0] == '\t' then " "
       else if Dropped(u, s[0]) then "" else [s[0]]) + MapTitle(u, s[1..])
  }

  function WordEnd(u: Tables, s: string): (n: nat)
    ensures n <= |s| && (n < |s| ==> u.text.space(s[n])) && forall i :: 0 <= i < n ==> !u.text.space(s[i])
  {
    if s == "" || u.text.space(s[0]) then 0 else 1 + WordEnd(u, s[1..])
  }

  // strings.Fields and strings.Join.
  function Fields(u: Tables, s: string): seq<string>
    decreases |s|
  {
    if s == "" then []
    else if u.text.space(s[0]) then Fields(u, s[1..])
    else [s[..WordEnd(u, s)]] + Fields(u, s[WordEnd(u, s)..])
  }

  function Join(words: seq<string>, sep: string): string {
    if words == [] then ""
    else if |words| == 1 then words[0]
    else words[0] + sep + Join(words[1..], sep)
  }

  function CapTitle(u: Tables, title: string): string {
    if |title| > MAX_TITLE then Trim(u.text, title[..MAX_TITLE]) + [ELLIPSIS] else title
  }

  function SanitizeTitle(u: Tables, s: string): string {
    CapTitle(u, Join(Fields(u, MapTitle(u, s)), " "))
  }

  // Words separated by single blanks, with none at either end.
  ghost predicate SingleSpaced(u: Tables, s: string) {
    && Trimmed(u.text, s)
    && forall i :: 0 < i < |s| && u.text.space(s[i]) ==> s[i] == ' ' && !u.text.space(s[i - 1])
  }

  lemma {:induction false} MapTitleCleans(u: Tables, s: string)
    requires ValidTables(u)
    ensures Clean(u, MapTitle(u, s))
    decreases |s|
  {
    if s != "" {
      MapTitleCleans(u, s[1..]);
    }
  }

  lemma {:induction false} MapTitleFixesClean(u: Tables, s: string)
    requires ValidTables(u) && Clean(u, s)
    ensures MapTitle(u, s) == s
    decreases |s|
  {
    if s != "" {
      assert !Dropped(u, s[0]);
      assert Clean(u, s[1..]) by {
        assert forall i :: 0 <= i < |s[1..]| ==> s[1..][i] == s[i + 1];
      }
      MapTitleFixesClean(u, s[1..]);
    }
  }

  ghost predicate Words(u: Tables, ws: seq<string>) {
    forall i :: 0 <= i < |ws| ==> ws[i] != "" && Clean(u, ws[i]) && NoSpace(u, ws[i])
  }

  ghost predicate NoSpace(u: Tables, w: string) { forall k :: 0 <= k < |w| ==> !u.text.space(w[k]) }

  lemma {:induction false} FieldsAreWords(u: Tables, s: string)
    requires Clean(u, s)
    ensures Words(u, Fields(u, s))
    decreases |s|
  {
    if s != "" {
      if u.text.space(s[0]) {
        CleanSlice(u, s, 1, |s|);
        FieldsAreWords(u, s[1..]);
      } else {
        var n := WordEnd(u, s);
        CleanSlice(u, s, 0, n);
        CleanSlice(u, s, n, |s|);
        FieldsAreWords(u, s[n..]);
      }
    }
  }

  lemma CleanSlice(u: Tables, s: string, a: nat, b: nat)
    requires Clean(u, s) && a <= b <= |s|
    ensures Clean(u, s[a..b])
  {
    forall i | 0 <= i < b - a ensures !Dropped(u, s[a..b][i]) {
      assert s[a..b][i] == s[a + i];
    }
  }

  lemma SpacedConcat(u: Tables, w: string, rest: string)
    requires ValidTables(u) && w != "" && Clean(u, w) && NoSpace(u, w)
    requires rest != "" && SingleSpaced(u, rest) && Clean(u, rest)
    ensures SingleSpaced(u, w + " " + rest) && Clean(u, w + " " + rest)
  {
    var t, n := w + " " + rest, |w|;
    assert forall i :: 0 <= i < n ==> t[i] == w[i];
    forall i | 0 <= i < |t| ensures !Dropped(u, t[i]) {
      if i > n {
        assert t[i] == rest[i - n - 1];
      }
    }
    forall i | 0 < i < |t| && u.text.space(t[i]) ensures t[i] == ' ' && !u.text.space(t[i - 1]) {
      if i == n {
        assert t[i - 1] == w[n - 1];
      } else if i > n {
        assert t[i] == rest[i - n - 1];
        assert i > n + 1 ==> t[i - 1] == rest[i - n - 2];
      }
    }
    assert t[0] == w[0] && t[|t| - 1] == rest[|rest| - 1];
  }

  lemma {:induction false} JoinIsSingleSpaced(u: Tables, ws: seq<string>)
    requires ValidTables(u) && Words(u, ws)
    ensures SingleSpaced(u, Join(ws, " ")) && Clean(u, Join(ws, " ")) && (ws != [] ==> Join(ws, " ") != "")
    decreases |ws|
  {
    if |ws| == 1 {
      assert NoSpace(u, ws[0]);
    } else if |ws| > 1 {
      assert ws[0] != "" && Clean(u, ws[0]) && NoSpace(u, ws[0]);
      assert Words(u, ws[1..]) by {
        assert forall i :: 0 <= i < |ws[1..]| ==> ws[1..][i] == ws[i + 1];
      }
      JoinIsSingleSpaced(u, ws[1..]);
      SpacedConcat(u, ws[0], Join(ws[1..], " "));
    }
  }

  lemma SpacedDrop(u: Tables, s: string, n: nat)
    requires SingleSpaced(u, s) && n < |s| && !u.text.space(s[n])
    ensures SingleSpaced(u, s[n..])
  {
    var t := s[n..];
    forall i | 0 < i < |t| && u.text.space(t[i]) ensures t[i] == ' ' && !u.text.space(t[i - 1]) {
      assert t[i] == s[n + i] && t[i - 1] == s[n + i - 1];
    }
  }

  lemma JoinCons(w: string, ws: seq<string>, sep: string)
    requires ws != []
    ensures Join([w] + ws, sep) == w + sep + Join(ws, sep)
  {
    assert ([w] + ws)[1..] == ws;
  }

  // The first word of a single-spaced text, and what follows it.
  lemma FieldsStep(u: Tables, s: string)
    requires ValidTables(u) && SingleSpaced(u, s) && s != ""
    ensures var n := WordEnd(u, s);
            && n > 0
            && (n == |s| ==> Fields(u, s) == [s])
            && (n < |s| ==> n + 1 < |s| && s[n] == ' ' && SingleSpaced(u, s[n + 1..])
                            && Fields(u, s) == [s[..n]] + Fields(u, s[n + 1..]))
  {
    var n := WordEnd(u, s);
    if n == |s| {
      assert s[n..] == "" && s[..n] == s;
    } else {
      assert s[n] == ' ' && n + 1 < |s|;
      assert s[n..][0] == ' ' && s[n..][1..] == s[n + 1..];
      assert u.text.space(s[n]);
      assert !u.text.space(s[n + 1]);
      SpacedDrop(u, s, n + 1);
    }
  }

  // A single-spaced text is its own fields, joined.
  lemma {:induction false} RejoinFields(u: Tables, s: string)
    requires ValidTables(u) && SingleSpaced(u, s)
    ensures Join(Fields(u, s), " ") == s && (s != "" ==> Fields(u, s) != [])
    decreases |s|
  {
    if s != "" {
      var n := WordEnd(u, s);
      FieldsStep(u, s);
      if n == |s| {
        assert Join([s], " ") == s;
      } else {
        var word, rest := s[..n], s[n + 1..];
        assert s == word + " " + rest && rest != "";
        hide *;
        RejoinFields(u, rest);
        JoinCons(word, Fields(u, rest), " ");
      }
    }
  }

  lemma {:induction false} TrimRightIsPrefix(u: Text, s: string)
    ensures TrimRight(u, s) <= s
    decreases |s|
  {
    if s != "" && u.space(s[|s| - 1]) {
      TrimRightIsPrefix(u, s[..|s| - 1]);
    }
  }

  lemma CappedIsSpaced(u: Tables, title: string)
    requires ValidTables(u) && SingleSpaced(u, title) && Clean(u, title) && |title| > MAX_TITLE
    ensures var t := CapTitle(u, title);
            && SingleSpaced(u, t) && Clean(u, t) && |t| <= MAX_TITLE + 1
            && t[|t| - 1] == ELLIPSIS && (|t| == MAX_TITLE + 1 ==> Trimmed(u.text, t[..MAX_TITLE]))
  {
    var cut := title[..MAX_TITLE];
    assert cut[0] == title[0];
    var q := Trim(u.text, cut);
    assert TrimLeft(u.text, cut) == cut;
    TrimRightIsPrefix(u.text, cut);
    TrimIsTrimmed(u.text, cut);
    var t := q + [ELLIPSIS];
    assert q == title[..|q|];
    forall i | 0 < i < |t| && u.text.space(t[i]) ensures t[i] == ' ' && !u.text.space(t[i - 1]) {
      assert t[i] == title[i] && t[i - 1] == title[i - 1];
    }
    forall i | 0 <= i < |t| ensures !Dropped(u, t[i]) {
      assert i < |q| ==> t[i] == title[i];
    }
    if |t| == MAX_TITLE + 1 {
      assert t[..MAX_TITLE] == q;
      TrimFixesTrimmed(u.text, q);
    }
  }

  // A neat title: what sanitizing makes, and what it leaves alone.
  ghost predicate NeatTitle(u: Tables, t: string) {
    && Clean(u, t) && SingleSpaced(u, t)
    && (|t| <= MAX_TITLE
        || (|t| == MAX_TITLE + 1 && t[MAX_TITLE] == ELLIPSIS && Trimmed(u.text, t[..MAX_TITLE])))
  }

  lemma TitleIsNeat(u: Tables, s: string)
    requires ValidTables(u)
    ensures NeatTitle(u, SanitizeTitle(u, s))
  {
    var m := MapTitle(u, s);
    var title := Join(Fields(u, m), " ");
    MapTitleCleans(u, s);
    FieldsAreWords(u, m);
    JoinIsSingleSpaced(u, Fields(u, m));
    if |title| > MAX_TITLE {
      CappedIsSpaced(u, title);
    }
  }

  lemma NeatTitleFixed(u: Tables, t: string)
    requires ValidTables(u) && NeatTitle(u, t)
    ensures SanitizeTitle(u, t) == t
  {
    hide Join, Fields, MapTitle, Trim, Clean, SingleSpaced;
    MapTitleFixesClean(u, t);
    RejoinFields(u, t);
    if |t| == MAX_TITLE + 1 {
      TrimFixesTrimmed(u.text, t[..MAX_TITLE]);
      assert t == t[..MAX_TITLE] + [ELLIPSIS];
    }
  }

  // Sanitizing leaves exactly the neat titles alone; so sanitizing twice is sanitizing once.
  lemma TitleFixedIff(u: Tables, s: string)
    requires ValidTables(u)
    ensures SanitizeTitle(u, s) == s <==> NeatTitle(u, s)
    ensures SanitizeTitle(u, SanitizeTitle(u, s)) == SanitizeTitle(u, s)
  {
    TitleIsNeat(u, s);
    if NeatTitle(u, s) {
      NeatTitleFixed(u, s);
    }
    NeatTitleFixed(u, SanitizeTitle(u, s));
  }

  // A title holds no control or format character, words separated by single blanks, and at most
  // one rune more than its cap.
  lemma TitleProps(u: Tables, s: string)
    requires ValidTables(u)
    ensures var t := SanitizeTitle(u, s); Clean(u, t) && SingleSpaced(u, t) && |t| <= MAX_TITLE + 1
  {
    TitleIsNeat(u, s);
  }

  // ---------------------------------------------------------------- nothing readable is lost

  // The runes a reader sees: neither dropped nor blank.
  function Ink(u: Tables, s: string): string {
    if s == "" then ""
    else (if Dropped(u, s[0]) || u.text.space(s[0]) then "" else [s[0]]) + Ink(u, s[1..])
  }

  lemma {:induction false} InkConcat(u: Tables, a: string, b: string)
    ensures Ink(u, a + b) == Ink(u, a) + Ink(u, b)
    decreases |a|
  {
    if a == "" {
      assert a + b == b;
    } else {
      assert (a + b)[1..] == a[1..] + b && (a + b)[0] == a[0];
      var head, x, y := if Dropped(u, a[0]) || u.text.space(a[0]) then "" else [a[0]], Ink(u, a[1..]), Ink(u, b);
      assert Ink(u, a) == head + x;
      assert Ink(u, a + b) == head + Ink(u, a[1..] + b);
      hide *;
      InkConcat(u, a[1..], b);
      assert head + (x + y) == head + x + y;
    }
  }

  lemma InkOne(u: Tables, c: char)
    ensures Ink(u, [c]) == if Dropped(u, c) || u.text.space(c) then "" else [c]
  {
    assert [c][1..] == "";
  }

  // The line breaks and the tab are white space.
  ghost predicate BreaksAreSpace(u: Tables) {
    u.text.space('\n') && u.text.space('\r') && u.text.space('\t')
  }

  lemma {:induction false} MapTitleKeepsInk(u: Tables, s: string)
    requires ValidTables(u)
    ensures Ink(u, MapTitle(u, s)) == Ink(u, s)
    decreases |s|
  {
    if s != "" {
      MapTitleKeepsInk(u, s[1..]);
      var c := s[0];
      var head := if c == '\n' || c == '\r' || c == '\t' then " " else if Dropped(u, c) then "" else [c];
      InkConcat(u, head, MapTitle(u, s[1..]));
      if head != "" {
        InkOne(u, head[0]);
        assert head == [head[0]];
      }
    }
  }

  lemma {:induction false} JoinFieldsKeepsInk(u: Tables, s: string)
    requires ValidTables(u)
    ensures Ink(u, Join(Fields(u, s), " ")) == Ink(u, s)
    decreases |s|
  {
    if s != "" {
      if u.text.space(s[0]) {
        JoinFieldsKeepsInk(u, s[1..]);
      } else {
        var n := WordEnd(u, s);
        var word, rest := s[..n], s[n..];
        assert s == word + rest;
        assert Fields(u, s) == [word] + Fields(u, rest);
        hide Fields, Join, WordEnd;
        JoinFieldsKeepsInk(u, rest);
        InkConcat(u, word, rest);
        JoinInk(u, word, Fields(u, rest));
      }
    }
  }

  lemma JoinInk(u: Tables, word: string, words: seq<string>)
    requires ValidTables(u)
    ensures Ink(u, Join([word] + words, " ")) == Ink(u, word) + Ink(u, Join(words, " "))
  {
    if words == [] {
      assert [word] + words == [word];
      assert Ink(u, Join(words, " ")) == "";
    } else {
      JoinCons(word, words, " ");
      InkConcat(u, word + " ", Join(words, " "));
      InkConcat(u, word, " ");
      InkOne(u, ' ');
    }
  }

  lemma TrimPrefix(u: Text, s: string)
    requires s == "" || !u.space(s[0])
    ensures Trim(u, s) <= s
  {
    TrimRightIsPrefix(u, s);
  }

  lemma {:induction false} TrimRightCuts(u: Text, s: string)
    ensures var r := TrimRight(u, s);
            && r <= s && (forall i :: |r| <= i < |s| ==> u.space(s[i])) && (r != "" ==> !u.space(r[|r| - 1]))
    decreases |s|
  {
    if s != "" && u.space(s[|s| - 1]) {
      TrimRightCuts(u, s[..|s| - 1]);
    }
  }

  // Where a title is cut: not at all up to 240 runes; beyond, right there, or one rune before if
  // that is a blank, and the ellipsis follows.
  lemma TitleCutAt(u: Tables, s: string)
    requires ValidTables(u)
    ensures var full, t := Join(Fields(u, MapTitle(u, s)), " "), SanitizeTitle(u, s);
            if |full| <= 240 then t == full
            else t == full[..if full[239] == ' ' then 239 else 240] + [ELLIPSIS]
  {
    var m := MapTitle(u, s);
    var full := Join(Fields(u, m), " ");
    if |full| > 240 {
      MapTitleCleans(u, s);
      FieldsAreWords(u, m);
      JoinIsSingleSpaced(u, Fields(u, m));
      hide MapTitle, Fields, Join;
      var cut := full[..240];
      assert cut[0] == full[0] && !u.text.space(full[0]);
      TrimRightCuts(u.text, cut);
      var r := TrimRight(u.text, cut);
      assert Trim(u.text, cut) == r == cut[..|r|];
      assert full[239] == ' ' ==> u.text.space(' ');
      if u.text.space(cut[239]) {
        assert !u.text.space(cut[238]) && |r| == 239;
      } else {
        assert |r| == 240;
      }
      assert cut[..|r|] == full[..|r|];
    }
  }

  // A title shows every readable rune of its text, in order; a capped one shows a beginning.
  lemma TitleKeepsInk(u: Tables, s: string)
    requires ValidTables(u)
    ensures var t := SanitizeTitle(u, s);
            Ink(u, t) == Ink(u, s) || (|t| > 0 && t[|t| - 1] == ELLIPSIS && Ink(u, t[..|t| - 1]) <= Ink(u, s))
  {
    var m := MapTitle(u, s);
    var title := Join(Fields(u, m), " ");
    MapTitleKeepsInk(u, s);
    JoinFieldsKeepsInk(u, m);
    if |title| > MAX_TITLE {
      MapTitleCleans(u, s);
      FieldsAreWords(u, m);
      JoinIsSingleSpaced(u, Fields(u, m));
      var cut := title[..MAX_TITLE];
      assert cut[0] == title[0];
      TrimPrefix(u.text, cut);
      var q := Trim(u.text, cut);
      assert title == q + title[|q|..];
      InkConcat(u, q, title[|q|..]);
      assert (q + [ELLIPSIS])[..|q|] == q;
    }
  }

  // ---------------------------------------------------------------- prompts

  function MapPrompt(u: Tables, s: string): string {
    if s == "" then ""
    else
      (if s[0] == '\n' then "\n" else if s[0] == '\r' then "" else if s[0] == '\t' then " "
       else if Dropped(u, s[0]) then "" else [s[0]]) + MapPrompt(u, s[1..])
  }

  // Where the last line starts.
  function LineStart(s: string): (p: nat)
    ensures p <= |s| && (p > 0 ==> s[p - 1] == '\n') && forall i :: p <= i < |s| ==> s[i] != '\n'
  {
    if s == "" then 0 else if s[|s| - 1] == '\n' then |s| else LineStart(s[..|s| - 1])
  }

  // strings.Split(s, "\n")
  function Split(s: string): (lines: seq<string>)
    ensures lines != []
    decreases |s|
  {
    var p := LineStart(s);
    if p == 0 then [s] else Split(s[..p - 1]) + [s[p..]]
  }

  function JoinLines(lines: seq<string>): string {
    if lines == [] then ""
    else if |lines| == 1 then lines[0]
    else JoinLines(lines[..|lines| - 1]) + "\n" + lines[|lines| - 1]
  }

  predicate Ragged(c: char) { c == ' ' || c == '\t' }

  predicate Trailing(c: char) { c == ' ' || c == '\n' }

  function TrimLine(s: string): string {
    if s != "" && Ragged(s[|s| - 1]) then TrimLine(s[..|s| - 1]) else s
  }

  function TrimBreaks(s: string): string {
    if s != "" && s[|s| - 1] == '\n' then TrimBreaks(s[..|s| - 1]) else s
  }

  function TrimTail(s: string): string {
    if s != "" && Trailing(s[|s| - 1]) then TrimTail(s[..|s| - 1]) else s
  }

  // The lines kept: right-trimmed, leading blanks dropped, runs of blanks collapsed.
  function Kept(lines: seq<string>): seq<string> {
    if lines == [] then []
    else
      var k, l := Kept(lines[..|lines| - 1]), TrimLine(lines[|lines| - 1]);
      if l == "" && (k == [] || k[|k| - 1] == "") then k else k + [l]
  }

  function CapPrompt(text: string): string {
    if |text| > MAX_PROMPT then TrimTail(text[..MAX_PROMPT]) + [ELLIPSIS] else text
  }

  function PromptText(u: Tables, s: string): string {
    CapPrompt(TrimBreaks(JoinLines(Kept(Split(MapPrompt(u, s))))))
  }

  // The loop that drops and collapses blank lines, with its counter.
  method CollapseLines(lines: seq<string>) returns (out: seq<string>)
    ensures out == Kept(lines)
  {
    out := [];
    var blank := 0;
    for i := 0 to |lines|
      invariant out == Kept(lines[..i]) && blank >= 0
      invariant out != [] ==> (blank >= 1 <==> out[|out| - 1] == "")
    {
      var line := TrimLine(lines[i]);
      assert lines[..i + 1][..i] == lines[..i];
      if line == "" {
        blank := blank + 1;
        if blank > 1 || |out| == 0 {
          continue;
        }
      } else {
        blank := 0;
      }
      out := out + [line];
    }
    assert lines[..|lines|] == lines;
  }

  method SanitizePrompt(u: Tables, s: string) returns (text: string)
    ensures text == PromptText(u, s)
  {
    var out := CollapseLines(Split(MapPrompt(u, s)));
    text := TrimBreaks(JoinLines(out));
    if |text| > MAX_PROMPT {
      text := TrimTail(text[..MAX_PROMPT]) + [ELLIPSIS];
    }
  }

  // No leading blank line, no two blank lines in a row, no line with blanks at its end.
  ghost predicate Neat(s: string) {
    && (s != "" ==> s[0] != '\n')
    && (forall i :: 0 < i < |s| && s[i] == '\n' ==> s[i - 1] != ' ')
    && (forall i :: 1 < i < |s| && s[i] == '\n' && s[i - 1] == '\n' ==> s[i - 2] != '\n')
  }

  ghost predicate EndsNeat(s: string) { s != "" ==> s[|s| - 1] != ' ' && s[|s| - 1] != '\n' }

  // What the mapping leaves.
  ghost predicate Mapped(u: Tables, s: string) { CleanLines(u, s) && forall i :: 0 <= i < |s| ==> s[i] != '\t' }

  lemma {:induction false} MapPromptMaps(u: Tables, s: string)
    requires ValidTables(u)
    ensures Mapped(u, MapPrompt(u, s))
    decreases |s|
  {
    if s != "" {
      MapPromptMaps(u, s[1..]);
    }
  }

  lemma {:induction false} MapPromptFixes(u: Tables, s: string)
    requires ValidTables(u) && CleanLines(u, s)
    ensures MapPrompt(u, s) == s
    decreases |s|
  {
    if s != "" {
      assert s[0] == '\n' || !Dropped(u, s[0]);
      assert CleanLines(u, s[1..]) by {
        assert forall i :: 0 <= i < |s[1..]| ==> s[1..][i] == s[i + 1];
      }
      MapPromptFixes(u, s[1..]);
    }
  }

  // ---------------------------------------------------------------- lines and text

  // A line of mapped text.
  ghost predicate IsLine(u: Tables, l: string) {
    Clean(u, l) && forall i :: 0 <= i < |l| ==> l[i] != '\n' && l[i] != '\t'
  }

  ghost predicate AreLines(u: Tables, lines: seq<string>) { forall i :: 0 <= i < |lines| ==> IsLine(u, lines[i]) }

  lemma LastLine(u: Tables, s: string, p: nat)
    requires Mapped(u, s) && p <= |s| && forall i :: p <= i < |s| ==> s[i] != '\n'
    ensures IsLine(u, s[p..])
    ensures p > 0 ==> Mapped(u, s[..p - 1])
  {
    forall i | 0 <= i < |s[p..]| ensures !Dropped(u, s[p..][i]) && s[p..][i] != '\n' && s[p..][i] != '\t' {
      assert s[p..][i] == s[p + i];
    }
  }

  lemma {:induction false} SplitMapped(u: Tables, s: string)
    requires Mapped(u, s)
    ensures AreLines(u, Split(s)) && JoinLines(Split(s)) == s
    decreases |s|
  {
    var p := LineStart(s);
    LastLine(u, s, p);
    if p == 0 {
      assert s[0..] == s;
    } else {
      var pre, l := s[..p - 1], s[p..];
      assert s == pre + "\n" + l;
      assert Split(s) == Split(pre) + [l];
      hide Mapped, Split, JoinLines, IsLine, LineStart;
      SplitMapped(u, pre);
      JoinSnoc(Split(pre), l);
    }
  }

  lemma {:induction false} TrimLineProps(u: Tables, l: string)
    requires IsLine(u, l)
    ensures IsLine(u, TrimLine(l)) && (TrimLine(l) != "" ==> TrimLine(l)[|TrimLine(l)| - 1] != ' ')
    decreases |l|
  {
    if l != "" && Ragged(l[|l| - 1]) {
      TrimLineProps(u, l[..|l| - 1]);
    }
  }

  // The text of kept lines, as far as it has been put together.
  ghost predicate Assembled(u: Tables, k: seq<string>) {
    var j := JoinLines(k);
    && Mapped(u, j) && Neat(j)
    && (k != [] ==> j != "" && (k[|k| - 1] == "" <==> j[|j| - 1] == '\n') && j[|j| - 1] != ' ')
    && (|j| > 1 ==> !(j[|j| - 1] == '\n' && j[|j| - 2] == '\n'))
  }

  lemma JoinSnoc(k: seq<string>, l: string)
    ensures JoinLines(k + [l]) == if k == [] then l else JoinLines(k) + "\n" + l
  {
    assert (k + [l])[..|k|] == k;
  }

  lemma AssembleOne(u: Tables, k: seq<string>, l: string)
    requires ValidTables(u) && Assembled(u, k) && IsLine(u, l) && (l != "" ==> l[|l| - 1] != ' ')
    requires l != "" || (k != [] && k[|k| - 1] != "")
    ensures Assembled(u, k + [l])
  {
    JoinSnoc(k, l);
    if k != [] {
      NeatConcat(u, JoinLines(k), l);
    }
    assert (k + [l])[|k + [l]| - 1] == l;
  }

  lemma NeatConcat(u: Tables, j: string, l: string)
    requires Mapped(u, j) && Neat(j) && IsLine(u, l) && j != "" && j[|j| - 1] != ' '
    requires |j| > 1 ==> !(j[|j| - 1] == '\n' && j[|j| - 2] == '\n')
    requires l != "" || j[|j| - 1] != '\n'
    ensures Mapped(u, j + "\n" + l) && Neat(j + "\n" + l)
  {
    var t, n := j + "\n" + l, |j|;
    assert forall i :: 0 <= i < n ==> t[i] == j[i];
    assert t[n] == '\n';
    assert forall i :: n < i < |t| ==> t[i] == l[i - n - 1];
    forall i | 0 <= i < |t| ensures (t[i] == '\n' || !Dropped(u, t[i])) && t[i] != '\t' {
    }
  }

  lemma {:induction false} KeptAssembles(u: Tables, lines: seq<string>)
    requires ValidTables(u) && AreLines(u, lines)
    ensures Assembled(u, Kept(lines))
    decreases |lines|
  {
    if lines == [] {
      assert JoinLines(Kept(lines)) == "";
    } else {
      var n := |lines| - 1;
      assert IsLine(u, lines[n]) && AreLines(u, lines[..n]);
      KeptAssembles(u, lines[..n]);
      TrimLineProps(u, lines[n]);
      var k, l := Kept(lines[..n]), TrimLine(lines[n]);
      hide Assembled, IsLine, TrimLine;
      if !(l == "" && (k == [] || k[|k| - 1] == "")) {
        AssembleOne(u, k, l);
      }
    }
  }

  lemma MappedPrefix(u: Tables, s: string, n: nat)
    requires Mapped(u, s) && Neat(s) && n <= |s|
    ensures Mapped(u, s[..n]) && Neat(s[..n])
  {
  }

  lemma {:induction false} TrimBreaksProps(u: Tables, s: string)
    requires Mapped(u, s) && Neat(s) && (s != "" ==> s[|s| - 1] != ' ')
    ensures var t := TrimBreaks(s); Mapped(u, t) && Neat(t) && EndsNeat(t)
    decreases |s|
  {
    if s != "" && s[|s| - 1] == '\n' {
      MappedPrefix(u, s, |s| - 1);
      TrimBreaksProps(u, s[..|s| - 1]);
    }
  }

  lemma {:induction false} TrimTailProps(u: Tables, s: string)
    requires Mapped(u, s) && Neat(s)
    ensures var t := TrimTail(s); Mapped(u, t) && Neat(t) && EndsNeat(t) && |t| <= |s|
    decreases |s|
  {
    if s != "" && Trailing(s[|s| - 1]) {
      MappedPrefix(u, s, |s| - 1);
      TrimTailProps(u, s[..|s| - 1]);
    }
  }

  // ---------------------------------------------------------------- neat text is a fixed point

  lemma {:induction false} SplitKept(u: Tables, s: string)
    requires Mapped(u, s) && Neat(s) && s != "" && s[|s| - 1] != ' '
    requires |s| > 1 ==> !(s[|s| - 1] == '\n' && s[|s| - 2] == '\n')
    ensures Kept(Split(s)) == Split(s)
    ensures Split(s)[|Split(s)| - 1] == "" <==> s[|s| - 1] == '\n'
    decreases |s|
  {
    var p := LineStart(s);
    var l := s[p..];
    assert TrimLine(l) == l by {
      assert l != "" ==> l[|l| - 1] == s[|s| - 1];
    }
    if p == 0 {
      assert [s][..0] == [];
    } else {
      var pre := s[..p - 1];
      MappedPrefix(u, s, p - 1);
      assert pre != "" && pre[|pre| - 1] == s[p - 2] != ' ';
      assert |pre| > 1 ==> pre[|pre| - 2] == s[p - 3];
      hide Neat, Mapped;
      SplitKept(u, pre);
      assert Split(s) == Split(pre) + [l];
      assert (Split(pre) + [l])[..|Split(pre)|] == Split(pre);
    }
  }

  lemma TrimBreaksFixes(s: string)
    requires EndsNeat(s)
    ensures TrimBreaks(s) == s
  {
  }

  // A neat prompt: what sanitizing makes, and what it leaves alone.
  ghost predicate NeatPrompt(u: Tables, t: string) {
    && Mapped(u, t) && Neat(t) && EndsNeat(t)
    && (|t| <= MAX_PROMPT
        || (|t| == MAX_PROMPT + 1 && t[MAX_PROMPT] == ELLIPSIS && EndsNeat(t[..MAX_PROMPT])))
  }

  lemma CapIsNeat(u: Tables, text: string)
    requires ValidTables(u) && Mapped(u, text) && Neat(text) && EndsNeat(text)
    ensures NeatPrompt(u, CapPrompt(text))
  {
    if |text| > MAX_PROMPT {
      MappedPrefix(u, text, MAX_PROMPT);
      TrimTailProps(u, text[..MAX_PROMPT]);
      var q := TrimTail(text[..MAX_PROMPT]);
      var t := q + [ELLIPSIS];
      assert forall i :: 0 <= i < |q| ==> t[i] == q[i];
      assert t[|q|] == ELLIPSIS;
      assert u.control('\t') && !u.control(ELLIPSIS);
      assert |t| == MAX_PROMPT + 1 ==> t[..MAX_PROMPT] == q;
    }
  }

  lemma PromptIsNeat(u: Tables, s: string)
    requires ValidTables(u)
    ensures NeatPrompt(u, PromptText(u, s))
  {
    var m := MapPrompt(u, s);
    MapPromptMaps(u, s);
    SplitMapped(u, m);
    KeptAssembles(u, Split(m));
    var j := JoinLines(Kept(Split(m)));
    assert Mapped(u, j) && Neat(j) && (j != "" ==> j[|j| - 1] != ' ');
    hide Mapped, Neat, EndsNeat, Split, Kept, JoinLines, Assembled;
    TrimBreaksProps(u, j);
    CapIsNeat(u, TrimBreaks(j));
  }

  lemma TrimTailFixes(s: string)
    requires EndsNeat(s)
    ensures TrimTail(s) == s
  {
  }

  lemma NeatLinesFixed(u: Tables, t: string)
    requires ValidTables(u) && Mapped(u, t) && Neat(t) && EndsNeat(t)
    ensures TrimBreaks(JoinLines(Kept(Split(MapPrompt(u, t))))) == t
  {
    assert CleanLines(u, t);
    assert t != "" ==> t[|t| - 1] != ' ' && t[|t| - 1] != '\n';
    MapPromptFixes(u, t);
    SplitMapped(u, t);
    TrimBreaksFixes(t);
    if t == "" {
      assert Split("") == [""] && [""][..0] == [];
      assert Kept([""]) == [];
    } else {
      hide *;
      SplitKept(u, t);
    }
  }

  lemma NeatIsFixed(u: Tables, t: string)
    requires ValidTables(u) && NeatPrompt(u, t)
    ensures PromptText(u, t) == t
  {
    NeatLinesFixed(u, t);
    hide TrimBreaks, JoinLines, Kept, Split, MapPrompt, Mapped, Neat, TrimTail;
    if |t| == MAX_PROMPT + 1 {
      TrimTailFixes(t[..MAX_PROMPT]);
      assert t == t[..MAX_PROMPT] + [ELLIPSIS];
    }
  }

  // Sanitizing leaves exactly the neat prompts alone; so sanitizing twice is sanitizing once.
  lemma PromptFixedIff(u: Tables, s: string)
    requires ValidTables(u)
    ensures PromptText(u, s) == s <==> NeatPrompt(u, s)
    ensures PromptText(u, PromptText(u, s)) == PromptText(u, s)
  {
    PromptIsNeat(u, s);
    if NeatPrompt(u, s) {
      NeatIsFixed(u, s);
    }
    NeatIsFixed(u, PromptText(u, s));
  }

  // A prompt holds no control character but line breaks and no format character, never starts
  // with a blank line, never holds two in a row, and is at most one rune longer than its cap.
  lemma PromptProps(u: Tables, s: string)
    requires ValidTables(u)
    ensures var t := PromptText(u, s); CleanLines(u, t) && Neat(t) && EndsNeat(t) && |t| <= MAX_PROMPT + 1
  {
    PromptIsNeat(u, s);
  }

  lemma {:induction false} MapPromptKeepsInk(u: Tables, s: string)
    requires ValidTables(u) && BreaksAreSpace(u)
    ensures Ink(u, MapPrompt(u, s)) == Ink(u, s)
    decreases |s|
  {
    if s != "" {
      MapPromptKeepsInk(u, s[1..]);
      var c := s[0];
      var head := if c == '\n' then "\n" else if c == '\r' then "" else if c == '\t' then " "
                  else if Dropped(u, c) then "" else [c];
      InkConcat(u, head, MapPrompt(u, s[1..]));
      if head != "" {
        InkOne(u, head[0]);
        assert head == [head[0]];
      }
    }
  }

  // Cutting blanks off an end cuts no ink.
  lemma InkDropBlank(u: Tables, s: string)
    requires s != "" && u.text.space(s[|s| - 1])
    ensures Ink(u, s) == Ink(u, s[..|s| - 1])
  {
    var n := |s| - 1;
    assert s == s[..n] + [s[n]];
    InkConcat(u, s[..n], [s[n]]);
    InkOne(u, s[n]);
  }

  lemma {:induction false} TrimLineKeepsInk(u: Tables, s: string)
    requires ValidTables(u) && BreaksAreSpace(u)
    ensures Ink(u, TrimLine(s)) == Ink(u, s)
    decreases |s|
  {
    if s != "" && Ragged(s[|s| - 1]) {
      TrimLineKeepsInk(u, s[..|s| - 1]);
      InkDropBlank(u, s);
    }
  }

  lemma {:induction false} TrimBreaksKeepsInk(u: Tables, s: string)
    requires ValidTables(u) && BreaksAreSpace(u)
    ensures Ink(u, TrimBreaks(s)) == Ink(u, s)
    decreases |s|
  {
    if s != "" && s[|s| - 1] == '\n' {
      TrimBreaksKeepsInk(u, s[..|s| - 1]);
      InkDropBlank(u, s);
    }
  }

  lemma JoinLinesInk(u: Tables, lines: seq<string>, l: string)
    requires BreaksAreSpace(u)
    ensures Ink(u, JoinLines(lines + [l])) == Ink(u, JoinLines(lines)) + Ink(u, l)
  {
    JoinSnoc(lines, l);
    if lines == [] {
      assert Ink(u, JoinLines(lines)) == "";
    } else {
      InkConcat(u, JoinLines(lines) + "\n", l);
      InkConcat(u, JoinLines(lines), "\n");
      InkOne(u, '\n');
    }
  }

  lemma {:induction false} KeptKeepsInk(u: Tables, lines: seq<string>)
    requires ValidTables(u) && BreaksAreSpace(u)
    ensures Ink(u, JoinLines(Kept(lines))) == Ink(u, JoinLines(lines))
    decreases |lines|
  {
    if lines != [] {
      var n := |lines| - 1;
      var k, l := Kept(lines[..n]), TrimLine(lines[n]);
      assert lines == lines[..n] + [lines[n]];
      assert Kept(lines) == if l == "" && (k == [] || k[|k| - 1] == "") then k else k + [l];
      hide Kept, JoinLines, TrimLine;
      KeptKeepsInk(u, lines[..n]);
      TrimLineKeepsInk(u, lines[n]);
      JoinLinesInk(u, lines[..n], lines[n]);
      JoinLinesInk(u, k, l);
      assert Ink(u, "") == "";
    }
  }

  lemma {:induction false} TrimTailIsPrefix(s: string)
    ensures TrimTail(s) <= s
    decreases |s|
  {
    if s != "" && Trailing(s[|s| - 1]) {
      TrimTailIsPrefix(s[..|s| - 1]);
    }
  }

  lemma {:induction false} TrimTailCuts(s: string)
    ensures var r := TrimTail(s);
            && r <= s && (forall i :: |r| <= i < |s| ==> s[i] == ' ' || s[i] == '\n')
            && (r != "" ==> r[|r| - 1] != ' ' && r[|r| - 1] != '\n')
    decreases |s|
  {
    if s != "" && Trailing(s[|s| - 1]) {
      TrimTailCuts(s[..|s| - 1]);
    }
  }

  // Where a prompt is cut: not at all up to 1200 runes; beyond, behind the last of the first 1200
  // that is no blank and no line break, and the ellipsis follows.
  lemma PromptCutAt(u: Tables, s: string) returns (n: nat)
    ensures var full, t := TrimBreaks(JoinLines(Kept(Split(MapPrompt(u, s))))), PromptText(u, s);
            if |full| <= 1200 then t == full
            else
              && n <= 1200 && t == full[..n] + [ELLIPSIS]
              && (n > 0 ==> full[n - 1] != ' ' && full[n - 1] != '\n')
              && forall i :: n <= i < 1200 ==> full[i] == ' ' || full[i] == '\n'
  {
    var full := TrimBreaks(JoinLines(Kept(Split(MapPrompt(u, s)))));
    assert PromptText(u, s) == CapPrompt(full);
    hide *;
    n := CappedAt(full);
  }

  lemma CappedAt(full: string) returns (n: nat)
    ensures if |full| <= 1200 then CapPrompt(full) == full
            else
              && n <= 1200 && CapPrompt(full) == full[..n] + [ELLIPSIS]
              && (n > 0 ==> full[n - 1] != ' ' && full[n - 1] != '\n')
              && forall i :: n <= i < 1200 ==> full[i] == ' ' || full[i] == '\n'
  {
    n := 0;
    if |full| > 1200 {
      TrimTailCuts(full[..1200]);
      n := |TrimTail(full[..1200])|;
      assert full[..1200][..n] == full[..n];
    }
  }

  // A prompt shows every readable rune of its text, in order; a capped one shows a beginning.
  lemma PromptKeepsInk(u: Tables, s: string)
    requires ValidTables(u) && BreaksAreSpace(u)
    ensures var t := PromptText(u, s);
            Ink(u, t) == Ink(u, s) || (|t| > 0 && t[|t| - 1] == ELLIPSIS && Ink(u, t[..|t| - 1]) <= Ink(u, s))
  {
    var m := MapPrompt(u, s);
    MapPromptKeepsInk(u, s);
    MapPromptMaps(u, s);
    SplitMapped(u, m);
    KeptKeepsInk(u, Split(m));
    var j := JoinLines(Kept(Split(m)));
    TrimBreaksKeepsInk(u, j);
    var text := TrimBreaks(j);
    hide Split, Kept, JoinLines, TrimBreaks, MapPrompt, Mapped;
    if |text| > MAX_PROMPT {
      var q := TrimTail(text[..MAX_PROMPT]);
      TrimTailIsPrefix(text[..MAX_PROMPT]);
      assert text == q + text[|q|..];
      InkConcat(u, q, text[|q|..]);
      assert (q + [ELLIPSIS])[..|q|] == q;
    }
  }
}
