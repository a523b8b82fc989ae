/** The two session files of internal/claudehook. */
module HookFiles {
  // Hook invocations are separate processes with no lock between them: SessionStart replaces the
  // id file, Stop reads both files and may replace the sidecar, and the daemon reads both. Each
  // file replacement is a rename, hence one step; everything between two file accesses may be
  // interleaved. Characters stand for bytes.

  import opened Common
  import opened ProjectNames

  const MAX_ID_BYTES := 256
  const MAX_RECORD_BYTES := 8192

  predicate IdChar(c: char) {
    '0' <= c <= '9' || 'a' <= c <= 'f' || 'A' <= c <= 'F' || c == '-'
  }

  // ^[0-9a-fA-F-]{32,64}$
  predicate ValidId(id: string) {
    32 <= |id| <= 64 && forall i :: 0 <= i < |id| ==> IdChar(id[i])
  }

  // An id is 32 to 64 hexadecimal digits and dashes.
  lemma ValidIdIff(id: string)
    ensures ValidId(id) <==> 32 <= |id| <= 64 && forall c :: c in id ==> c in "0123456789abcdefABCDEF-"
  {
    forall c: char ensures IdChar(c) <==> c in "0123456789abcdefABCDEF-" {
      HexDigits(c);
    }
  }

  lemma HexDigits(c: char)
    ensures IdChar(c) <==> c in "0123456789abcdefABCDEF-"
  {
    var s := "0123456789abcdefABCDEF-";
    if '0' <= c <= '9' {
      assert s[c as int - '0' as int] == c;
    } else if 'a' <= c <= 'f' {
      assert s[10 + (c as int - 'a' as int)] == c;
    } else if 'A' <= c <= 'F' {
      assert s[16 + (c as int - 'A' as int)] == c;
    } else if c == '-' {
      assert s[22] == c;
    }
  }

  // A path that can stand on a line of its own.
  predicate PathOk(path: string) { path != "" && '\n' !in path && '\r' !in path }

  // What the white-space table says about the characters of an id.
  ghost predicate IdsAreText(u: Text) { forall c: char :: IdChar(c) ==> !u.space(c) }

  datatype Record = Record(id: string, path: string)

  // ---------------------------------------------------------------- the record format

  function Min(a: nat, b: nat): nat { if a <= b then a else b }

  function LineEnd(s: string): (n: nat)
    ensures n <= |s| && (n < |s| ==> s[n] == '\n') && forall i :: 0 <= i < n ==> s[i] != '\n'
  {
    if s == "" || s[0] == '\n' then 0 else 1 + LineEnd(s[1..])
  }

  lemma LineEndIs(s: string, n: nat)
    requires n < |s| && s[n] == '\n' && forall i :: 0 <= i < n ==> s[i] != '\n'
    ensures LineEnd(s) == n
  {
  }

  function ParseRecord(u: Text, body: string): Record {
    var n := LineEnd(body);
    var id := Trim(u, body[..n]);
    Record(if |id| <= MAX_ID_BYTES then id else "",
           if n == |body| then "" else Trim(u, body[n + 1..][..LineEnd(body[n + 1..])]))
  }

  function Format(id: string, path: string): string {
    id + "\n" + (if PathOk(path) then path + "\n" else "")
  }

  function ReadLimited(body: string): string { body[..Min(|body|, MAX_RECORD_BYTES)] }

  // How a path comes back from the id file: trimmed, and cut where the read limit falls.
  function AsRead(u: Text, id: string, path: string): string
    requires ValidId(id)
  {
    if !PathOk(path) then "" else Trim(u, path[..Min(|path|, MAX_RECORD_BYTES - |id| - 1)])
  }

  lemma IdSurvivesTrim(u: Text, id: string)
    requires IdsAreText(u) && ValidId(id)
    ensures Trim(u, id) == id
  {
    assert IdChar(id[0]) && IdChar(id[|id| - 1]);
    TrimFixesTrimmed(u, id);
  }

  lemma ParseTwoLines(u: Text, id: string, second: string)
    requires IdsAreText(u) && ValidId(id) && '\n' !in second
    ensures ParseRecord(u, id + "\n" + second) == Record(id, Trim(u, second))
    ensures ParseRecord(u, id + "\n" + second + "\n") == Record(id, Trim(u, second))
  {
    assert id + "\n" + second + "\n" == id + "\n" + (second + "\n");
    assert (second + "\n")[..|second|] == second && second[..|second|] == second;
    LineEndIs(second + "\n", |second|);
    assert LineEnd(second) == |second|;
    hide *;
    ParseAfterId(u, id, second);
    ParseAfterId(u, id, second + "\n");
  }

  lemma ParseAfterId(u: Text, id: string, rest: string)
    requires IdsAreText(u) && ValidId(id)
    ensures ParseRecord(u, id + "\n" + rest) == Record(id, Trim(u, rest[..LineEnd(rest)]))
  {
    var body := id + "\n" + rest;
    forall i | 0 <= i < |id| ensures body[i] != '\n' {
      assert IdChar(id[i]);
    }
    LineEndIs(body, |id|);
    assert body[..|id|] == id && body[|id| + 1..] == rest;
    IdSurvivesTrim(u, id);
  }

  // Round trip through the id file, for every id and every path whatever its length.
  lemma FormatParses(u: Text, id: string, path: string)
    requires IdsAreText(u) && ValidId(id)
    ensures ParseRecord(u, ReadLimited(Format(id, path))) == Record(id, AsRead(u, id, path))
  {
    var body := Format(id, path);
    if !PathOk(path) {
      assert ReadLimited(body) == id + "\n" + "";
      ParseTwoLines(u, id, "");
    } else if |body| <= MAX_RECORD_BYTES {
      assert body == id + "\n" + path + "\n" && ReadLimited(body) == body;
      assert path[..|path|] == path;
      ParseTwoLines(u, id, path);
    } else {
      var n := Min(|path|, MAX_RECORD_BYTES - |id| - 1);
      assert ReadLimited(body) == id + "\n" + path[..n];
      ParseTwoLines(u, id, path[..n]);
    }
  }

  // ---------------------------------------------------------------- the files

  datatype Files = Files(idFile: Option<string>, sidecar: Option<string>)

  // readTranscriptSidecar: a file that is over-long, absent or cannot be read says nothing.
  function ReadSidecar(u: Text, sidecar: Option<string>): Record {
    match sidecar
    case None => Record("", "")
    case Some(b) => if |b| > MAX_RECORD_BYTES then Record("", "") else ParseRecord(u, b)
  }

  function TryReadSidecar(u: Text, sidecar: Option<string>, diskOk: bool): Record {
    if diskOk then ReadSidecar(u, sidecar) else Record("", "")
  }

  // The sidecar wins when it describes the session the id file names.
  function Combine(rec: Record, side: Record): Record {
    if side.path != "" && side.id == rec.id then rec.(path := side.path) else rec
  }

  // ReadPersistedSession with nothing in between.
  function ReadRecord(u: Text, f: Files): Option<Record> {
    match f.idFile
    case None => None
    case Some(b) => Some(Combine(ParseRecord(u, ReadLimited(b)), ReadSidecar(u, f.sidecar)))
  }

  // ---------------------------------------------------------------- interleaved processes

  // A Stop hook: begun, id file read, about to write the sidecar, done.
  datatype Stop =
    | Begun(sid: string, path: string)
    | IdRead(sid: string, path: string, rec: Record)
    | Ready(sid: string, path: string)
    | Over

  // A daemon read: not begun, id file read, or its result.
  datatype Read = Fresh | Half(rec: Record) | Full(rec: Record)

  // The rest is history: the last SessionStart record written, the last sidecar record written
  // and whether that came after it, and every session and path some hook was invoked with.
  datatype Sys = Sys(files: Files, stops: seq<Stop>, readers: seq<Read>,
                     last: Option<(string, string)>, lastSide: Option<(string, string)>, sideNewer: bool,
                     told: set<(string, string)>)

  datatype Event =
    | SessionStart(id: string, path: string, diskOk: bool)
    | StopBegin(sid: string, path: string)
    | StopReadId(k: nat, diskOk: bool)
    | StopReadSidecar(k: nat, diskOk: bool)
    | StopWrite(k: nat, diskOk: bool)
    | ReadBegin
    | ReadId(k: nat, diskOk: bool)
    | ReadSide(k: nat, diskOk: bool)

  function Write(s: Sys, id: string, path: string, diskOk: bool): Sys {
    var s1 := s.(told := s.told + {(id, path)});
    if ValidId(id) && diskOk then
      s1.(files := s.files.(idFile := Some(Format(id, path))), last := Some((id, path)), sideNewer := false)
    else s1
  }

  function AfterReads(st: Stop, rec: Record): Stop
    requires st.IdRead?
  {
    if rec.id != st.sid || rec.path == st.path then Over else Ready(st.sid, st.path)
  }

  function Next(u: Text, s: Sys, e: Event): Sys {
    match e
    case SessionStart(id, path, diskOk) => Write(s, id, path, diskOk)
    case StopBegin(sid, path) =>
      s.(told := s.told + {(sid, path)},
         stops := s.stops + [if ValidId(sid) && PathOk(path) then Begun(sid, path) else Over])
    case StopReadId(k, diskOk) =>
      if k >= |s.stops| || !s.stops[k].Begun? then s
      else if !diskOk || s.files.idFile.None? then s.(stops := s.stops[k := Over])
      else
        var rec := ParseRecord(u, ReadLimited(s.files.idFile.value));
        s.(stops := s.stops[k := IdRead(s.stops[k].sid, s.stops[k].path, rec)])
    case StopReadSidecar(k, diskOk) =>
      if k >= |s.stops| || !s.stops[k].IdRead? then s
      else
        var rec := Combine(s.stops[k].rec, TryReadSidecar(u, s.files.sidecar, diskOk));
        s.(stops := s.stops[k := AfterReads(s.stops[k], rec)])
    case StopWrite(k, diskOk) =>
      if k >= |s.stops| || !s.stops[k].Ready? then s
      else
        var st := s.stops[k];
        var s1 := s.(stops := s.stops[k := Over]);
        if diskOk then
          s1.(files := s.files.(sidecar := Some(Format(st.sid, st.path))), lastSide := Some((st.sid, st.path)), sideNewer := true)
        else s1
    case ReadBegin => s.(readers := s.readers + [Fresh])
    case ReadId(k, diskOk) =>
      if k >= |s.readers| || !s.readers[k].Fresh? || s.files.idFile.None? || !diskOk then s
      else s.(readers := s.readers[k := Half(ParseRecord(u, ReadLimited(s.files.idFile.value)))])
    case ReadSide(k, diskOk) =>
      if k >= |s.readers| || !s.readers[k].Half? then s
      else s.(readers := s.readers[k := Full(Combine(s.readers[k].rec, TryReadSidecar(u, s.files.sidecar, diskOk)))])
  }

  ghost predicate Initial(s: Sys) {
    && s.files.idFile.None? && s.files.sidecar.None? && s.stops == [] && s.readers == []
    && s.last.None? && s.lastSide.None? && !s.sideNewer && s.told == {}
  }

  function Exec(u: Text, s: Sys, es: seq<Event>): Sys {
    if es == [] then s else Next(u, Exec(u, s, es[..|es| - 1]), es[|es| - 1])
  }

  // The last SessionStart that reached the disk.
  function LastStart(es: seq<Event>): Option<(string, string)> {
    if es == [] then None
    else
      var e := es[|es| - 1];
      if e.SessionStart? && e.diskOk && ValidId(e.id) then Some((e.id, e.path)) else LastStart(es[..|es| - 1])
  }

  // ---------------------------------------------------------------- the persisted id

  ghost predicate IdInv(s: Sys) {
    match s.last
    case None => s.files.idFile.None?
    case Some((id, path)) => ValidId(id) && s.files.idFile == Some(Format(id, path)) && (id, path) in s.told
  }

  lemma NextKeepsId(u: Text, s: Sys, e: Event)
    requires IdInv(s)
    ensures IdInv(Next(u, s, e))
    ensures !e.SessionStart? ==> Next(u, s, e).files.idFile == s.files.idFile && Next(u, s, e).last == s.last
  {
    hide ParseRecord, ReadSidecar, ReadLimited, Format, ValidId, PathOk, Combine;
  }

  lemma {:induction false} RunKeepsId(u: Text, s: Sys, es: seq<Event>)
    requires Initial(s)
    ensures IdInv(Exec(u, s, es)) && Exec(u, s, es).last == LastStart(es)
    decreases |es|
  {
    if es != [] {
      RunKeepsId(u, s, es[..|es| - 1]);
      NextKeepsId(u, Exec(u, s, es[..|es| - 1]), es[|es| - 1]);
      hide ParseRecord, ReadSidecar, ReadLimited, Format, PathOk, Combine;
    }
  }

  // In every interleaving the id on disk is the id of the last SessionStart written: no Stop,
  // however stale, brings an old session back.
  lemma PersistedIdIsLastStart(u: Text, s: Sys, es: seq<Event>)
    requires Initial(s) && IdsAreText(u)
    ensures var r := ReadRecord(u, Exec(u, s, es).files);
            match LastStart(es)
            case None => r.None?
            case Some((id, _)) => r.Some? && r.value.id == id
  {
    RunKeepsId(u, s, es);
    match LastStart(es)
    case None =>
    case Some((id, path)) => FormatParses(u, id, path);
  }

  // ---------------------------------------------------------------- the transcript path

  // The path was reported for this very session, up to trimming and the read limit.
  ghost predicate Reported(u: Text, told: set<(string, string)>, rec: Record) {
    rec.path == "" || exists p :: (rec.id, p) in told && ValidId(rec.id) && rec.path == AsRead(u, rec.id, p)
  }

  ghost predicate StopInv(u: Text, told: set<(string, string)>, st: Stop) {
    && (st.Over? || ((st.sid, st.path) in told && ValidId(st.sid) && PathOk(st.path)))
    && (st.IdRead? ==> Reported(u, told, st.rec))
  }

  ghost predicate ReadInv(u: Text, told: set<(string, string)>, r: Read) {
    r.Fresh? || Reported(u, told, r.rec)
  }

  ghost predicate SidecarInv(u: Text, told: set<(string, string)>, sidecar: Option<string>) {
    Reported(u, told, ReadSidecar(u, sidecar))
  }

  ghost predicate PathInv(u: Text, s: Sys) {
    && SidecarInv(u, s.told, s.files.sidecar)
    && (forall k :: 0 <= k < |s.stops| ==> StopInv(u, s.told, s.stops[k]))
    && (forall k :: 0 <= k < |s.readers| ==> ReadInv(u, s.told, s.readers[k]))
  }

  lemma ReportedGrows(u: Text, told: set<(string, string)>, more: set<(string, string)>, rec: Record)
    requires Reported(u, told, rec) && told <= more
    ensures Reported(u, more, rec)
  {
    if rec.path != "" {
      var p :| (rec.id, p) in told && ValidId(rec.id) && rec.path == AsRead(u, rec.id, p);
      assert (rec.id, p) in more;
    }
  }

  lemma PathInvGrows(u: Text, s: Sys, more: set<(string, string)>)
    requires PathInv(u, s) && s.told <= more
    ensures PathInv(u, s.(told := more))
  {
    hide Reported, ReadSidecar;
    ReportedGrows(u, s.told, more, ReadSidecar(u, s.files.sidecar));
    forall k | 0 <= k < |s.stops| ensures StopInv(u, more, s.stops[k]) {
      assert StopInv(u, s.told, s.stops[k]);
      if s.stops[k].IdRead? {
        ReportedGrows(u, s.told, more, s.stops[k].rec);
      }
    }
    forall k | 0 <= k < |s.readers| ensures ReadInv(u, more, s.readers[k]) {
      assert ReadInv(u, s.told, s.readers[k]);
      if !s.readers[k].Fresh? {
        ReportedGrows(u, s.told, more, s.readers[k].rec);
      }
    }
  }

  lemma CombineReported(u: Text, told: set<(string, string)>, rec: Record, side: Record)
    requires Reported(u, told, rec) && Reported(u, told, side)
    ensures Reported(u, told, Combine(rec, side))
  {
    if side.path != "" && side.id == rec.id {
      var p :| (side.id, p) in told && ValidId(side.id) && side.path == AsRead(u, side.id, p);
      assert (rec.id, p) in told;
    }
  }

  lemma IdFileReported(u: Text, s: Sys)
    requires IdInv(s) && IdsAreText(u) && s.files.idFile.Some?
    ensures Reported(u, s.told, ParseRecord(u, ReadLimited(s.files.idFile.value)))
  {
    FormatParses(u, s.last.value.0, s.last.value.1);
  }

  lemma WrittenSidecarReported(u: Text, told: set<(string, string)>, sid: string, path: string)
    requires IdsAreText(u) && ValidId(sid) && PathOk(path) && (sid, path) in told
    ensures SidecarInv(u, told, Some(Format(sid, path)))
  {
    var body := Format(sid, path);
    if |body| <= MAX_RECORD_BYTES {
      assert ReadLimited(body) == body;
      FormatParses(u, sid, path);
    }
  }

  lemma TryReported(u: Text, told: set<(string, string)>, sidecar: Option<string>, diskOk: bool)
    requires SidecarInv(u, told, sidecar)
    ensures Reported(u, told, TryReadSidecar(u, sidecar, diskOk))
  {
  }

  lemma NextKeepsPath(u: Text, s: Sys, e: Event)
    requires IdInv(s) && PathInv(u, s) && IdsAreText(u)
    ensures PathInv(u, Next(u, s, e))
  {
    hide Reported, ReadSidecar, ParseRecord, ReadLimited, Format, ValidId, PathOk, Combine, IdsAreText;
    match e
    case SessionStart(id, path, _) => PathInvGrows(u, s, s.told + {(id, path)});
    case StopBegin(sid, path) => PathInvGrows(u, s, s.told + {(sid, path)});
    case StopReadId(k, _) =>
      if s.files.idFile.Some? {
        IdFileReported(u, s);
      }
    case StopReadSidecar(k, _) =>
    case StopWrite(k, _) =>
      if k < |s.stops| && s.stops[k].Ready? {
        assert StopInv(u, s.told, s.stops[k]);
        WrittenSidecarReported(u, s.told, s.stops[k].sid, s.stops[k].path);
      }
    case ReadBegin =>
    case ReadId(k, _) =>
      if s.files.idFile.Some? {
        IdFileReported(u, s);
      }
    case ReadSide(k, diskOk) =>
      if k < |s.readers| && s.readers[k].Half? {
        assert ReadInv(u, s.told, s.readers[k]);
        TryReported(u, s.told, s.files.sidecar, diskOk);
        CombineReported(u, s.told, s.readers[k].rec, TryReadSidecar(u, s.files.sidecar, diskOk));
      }
  }

  lemma {:induction false} RunKeepsPath(u: Text, s: Sys, es: seq<Event>)
    requires Initial(s) && IdsAreText(u)
    ensures PathInv(u, Exec(u, s, es))
    decreases |es|
  {
    if es == [] {
      assert ReadSidecar(u, s.files.sidecar) == Record("", "");
    } else {
      var m := Exec(u, s, es[..|es| - 1]);
      hide Next, Initial, IdInv, PathInv, IdsAreText;
      RunKeepsId(u, s, es[..|es| - 1]);
      RunKeepsPath(u, s, es[..|es| - 1]);
      NextKeepsPath(u, m, es[|es| - 1]);
    }
  }

  // A record read, at whatever two moments its files were read, carries a path some hook
  // reported for that same session, or none.
  lemma ReadPathWasReported(u: Text, s: Sys, es: seq<Event>, k: nat)
    requires Initial(s) && IdsAreText(u)
    requires k < |Exec(u, s, es).readers| && Exec(u, s, es).readers[k].Full?
    ensures Reported(u, Exec(u, s, es).told, Exec(u, s, es).readers[k].rec)
  {
    RunKeepsPath(u, s, es);
    var r := Exec(u, s, es);
    hide Exec, Reported;
    assert ReadInv(u, r.told, r.readers[k]);
  }

  // Within the read limit nothing but white space is lost of a path that is one line; any other
  // is dropped whole.
  lemma WithinLimitOnlyTrims(u: Text, id: string, path: string)
    requires ValidId(id) && |id| + 1 + |path| <= 8192
    ensures AsRead(u, id, path) == if '\n' in path || '\r' in path then "" else Trim(u, path)
  {
    assert path[..|path|] == path;
  }

  // ---------------------------------------------------------------- an undisturbed Stop

  // The sidecar a Stop leaves when nothing runs beside it.
  function StopAlone(u: Text, f: Files, sid: string, path: string, diskOk: bool): Files {
    if !ValidId(sid) || !PathOk(path) then f
    else
      var r := ReadRecord(u, f);
      if r.None? || r.value.id != sid || r.value.path == path || !diskOk then f
      else f.(sidecar := Some(Format(sid, path)))
  }

  lemma {:induction false} ExecFour(u: Text, s: Sys, a: Event, b: Event, c: Event, d: Event)
    ensures Exec(u, s, [a, b, c, d]) == Next(u, Next(u, Next(u, Next(u, s, a), b), c), d)
  {
    assert [a, b, c, d][..3] == [a, b, c] && [a, b, c][..2] == [a, b] && [a, b][..1] == [a] && [a][..0] == [];
    hide Next;
    assert Exec(u, s, [a]) == Next(u, Exec(u, s, []), a);
    assert Exec(u, s, [a, b]) == Next(u, Exec(u, s, [a]), b);
    assert Exec(u, s, [a, b, c]) == Next(u, Exec(u, s, [a, b]), c);
  }

  // The four steps of a Stop, run back to back, are StopAlone.
  lemma StopStepsAlone(u: Text, s: Sys, sid: string, path: string, diskOk: bool)
    ensures var k := |s.stops|;
            Exec(u, s, [StopBegin(sid, path), StopReadId(k, true), StopReadSidecar(k, true), StopWrite(k, diskOk)]).files
            == StopAlone(u, s.files, sid, path, diskOk)
  {
    var k := |s.stops|;
    ExecFour(u, s, StopBegin(sid, path), StopReadId(k, true), StopReadSidecar(k, true), StopWrite(k, diskOk));
    hide Exec, ParseRecord, ReadSidecar, ReadLimited, Format, ValidId, PathOk, Combine;
  }

  lemma SidecarReads(u: Text, id: string, path: string)
    requires IdsAreText(u) && ValidId(id) && PathOk(path) && |id| + |path| + 2 <= MAX_RECORD_BYTES
    ensures ReadSidecar(u, Some(Format(id, path))) == Record(id, Trim(u, path))
  {
    var body := Format(id, path);
    assert |body| <= MAX_RECORD_BYTES && ReadLimited(body) == body;
    FormatParses(u, id, path);
    WithinLimitOnlyTrims(u, id, path);
  }

  // A sidecar naming the session the id file names gives the path.
  lemma SidecarWins(u: Text, f: Files, id: string, was: string, path: string)
    requires IdsAreText(u) && ValidId(id) && PathOk(path) && |id| + |path| + 2 <= MAX_RECORD_BYTES
    requires f == Files(Some(Format(id, was)), Some(Format(id, path))) && Trim(u, path) != ""
    ensures ReadRecord(u, f) == Some(Record(id, Trim(u, path)))
  {
    FormatParses(u, id, was);
    SidecarReads(u, id, path);
    hide ReadSidecar, ParseRecord, ReadLimited, Format, Trim, AsRead;
  }

  // A Stop of the current session that runs undisturbed leaves its path as the one read back.
  lemma AloneStopRepairs(u: Text, f: Files, id: string, was: string, path: string)
    requires IdsAreText(u) && ValidId(id) && f.idFile == Some(Format(id, was))
    requires PathOk(path) && Trim(u, path) != "" && |id| + |path| + 2 <= MAX_RECORD_BYTES
    ensures ReadRecord(u, StopAlone(u, f, id, path, true)) == Some(Record(id, Trim(u, path)))
  {
    FormatParses(u, id, was);
    var r := ReadRecord(u, f).value;
    assert r.id == id;
    hide ReadSidecar, ParseRecord, ReadLimited, Format, Trim, AsRead, Combine, ReadRecord, ValidId, PathOk;
    if r.path == path {
      ReadPathIsTrimmed(u, f);
      TrimFixesTrimmed(u, path);
    } else {
      SidecarWins(u, Files(f.idFile, Some(Format(id, path))), id, was, path);
    }
  }

  lemma ReadPathIsTrimmed(u: Text, f: Files)
    requires ReadRecord(u, f).Some?
    ensures Trimmed(u, ReadRecord(u, f).value.path)
  {
    var body := ReadLimited(f.idFile.value);
    TrimIsTrimmed(u, body[LineEnd(body)..][Min(1, |body| - LineEnd(body))..]);
    ParsedPathTrimmed(u, body);
    if f.sidecar.Some? {
      ParsedPathTrimmed(u, f.sidecar.value);
    }
  }

  lemma ParsedPathTrimmed(u: Text, body: string)
    ensures Trimmed(u, ParseRecord(u, body).path)
  {
    var n := LineEnd(body);
    if n < |body| {
      TrimIsTrimmed(u, body[n + 1..][..LineEnd(body[n + 1..])]);
    }
  }

  // ---------------------------------------------------------------- which path is read back

  ghost predicate SideInv(s: Sys) {
    match s.lastSide
    case None => s.files.sidecar.None? && !s.sideNewer
    case Some((sid, path)) => ValidId(sid) && PathOk(path) && s.files.sidecar == Some(Format(sid, path))
  }

  lemma NextKeepsSide(u: Text, s: Sys, e: Event)
    requires PathInv(u, s) && SideInv(s)
    ensures SideInv(Next(u, s, e))
  {
    hide Reported, TryReadSidecar, ReadSidecar, ParseRecord, ReadLimited, Format, ValidId, PathOk, Combine;
    if e.StopWrite? && e.k < |s.stops| {
      assert StopInv(u, s.told, s.stops[e.k]);
    }
  }

  lemma {:induction false} RunKeepsSide(u: Text, s: Sys, es: seq<Event>)
    requires Initial(s) && IdsAreText(u)
    ensures SideInv(Exec(u, s, es))
    decreases |es|
  {
    if es != [] {
      var m := Exec(u, s, es[..|es| - 1]);
      hide Next, Initial, IdInv, PathInv, SideInv, IdsAreText;
      RunKeepsPath(u, s, es[..|es| - 1]);
      RunKeepsSide(u, s, es[..|es| - 1]);
      NextKeepsSide(u, m, es[|es| - 1]);
    }
  }

  // The sidecar record names the session.
  predicate Names(side: Option<(string, string)>, id: string) { side.Some? && side.value.0 == id }

  // It names the session, is not over-long, and its path is not blank.
  predicate Speaks(u: Text, side: Option<(string, string)>, id: string) {
    Names(side, id) && |id| + |side.value.1| + 2 <= MAX_RECORD_BYTES && Trim(u, side.value.1) != ""
  }

  function PathReadBack(u: Text, side: Option<(string, string)>, id: string, started: string): string
    requires ValidId(id)
  {
    if Speaks(u, side, id) then Trim(u, side.value.1) else AsRead(u, id, started)
  }

  lemma SidecarSays(u: Text, sid: string, path: string)
    requires IdsAreText(u) && ValidId(sid) && PathOk(path)
    ensures ReadSidecar(u, Some(Format(sid, path)))
            == if |sid| + |path| + 2 <= MAX_RECORD_BYTES then Record(sid, Trim(u, path)) else Record("", "")
  {
    if |sid| + |path| + 2 <= MAX_RECORD_BYTES {
      SidecarReads(u, sid, path);
    }
  }

  lemma FilesSay(u: Text, s: Sys)
    requires IdInv(s) && SideInv(s) && IdsAreText(u) && s.last.Some?
    ensures ValidId(s.last.value.0)
    ensures ReadRecord(u, s.files) == Some(Record(s.last.value.0, PathReadBack(u, s.lastSide, s.last.value.0, s.last.value.1)))
  {
    FormatParses(u, s.last.value.0, s.last.value.1);
    if s.lastSide.Some? {
      SidecarSays(u, s.lastSide.value.0, s.lastSide.value.1);
    }
    hide ParseRecord, ReadLimited, Format, Trim, AsRead, ValidId, PathOk;
  }

  // What is read back, in every interleaving: the id of the last SessionStart written, with the
  // path of the last sidecar written if that names the id, fits and is not blank, and otherwise
  // the path of that SessionStart.
  lemma ReadBackIs(u: Text, s: Sys, es: seq<Event>)
    requires Initial(s) && IdsAreText(u)
    ensures var t := Exec(u, s, es);
            && t.last == LastStart(es)
            && match LastStart(es)
               case None => ReadRecord(u, t.files).None?
               case Some((id, started)) =>
                 ValidId(id) && ReadRecord(u, t.files) == Some(Record(id, PathReadBack(u, t.lastSide, id, started)))
  {
    RunKeepsId(u, s, es);
    RunKeepsSide(u, s, es);
    var t := Exec(u, s, es);
    if t.last.Some? {
      FilesSay(u, t);
    }
    hide Exec, Initial, LastStart, SideInv, PathReadBack, ValidId, Format;
  }

  // Exactly when the path is the one the last SessionStart recorded: unless the last sidecar
  // written speaks for that session and says otherwise.
  lemma StartedPathReadBackIff(u: Text, s: Sys, es: seq<Event>)
    requires Initial(s) && IdsAreText(u) && LastStart(es).Some?
    ensures var t, (id, started) := Exec(u, s, es), LastStart(es).value;
            && ValidId(id) && ReadRecord(u, t.files).Some?
            && (ReadRecord(u, t.files).value.path == AsRead(u, id, started)
                <==> (Speaks(u, t.lastSide, id) ==> Trim(u, t.lastSide.value.1) == AsRead(u, id, started)))
  {
    ReadBackIs(u, s, es);
    hide Exec, Initial, LastStart, ReadRecord, Speaks, Trim, AsRead, ValidId;
  }

  // The path last recorded for the session, by a SessionStart or by a Stop after it.
  function NewestPath(u: Text, t: Sys): string
    requires t.last.Some? && ValidId(t.last.value.0)
  {
    if t.sideNewer && Names(t.lastSide, t.last.value.0) then Trim(u, t.lastSide.value.1)
    else AsRead(u, t.last.value.0, t.last.value.1)
  }

  // Exactly when the path is the one last recorded for the session. It is not when a sidecar
  // that speaks for the session is older than its start, or a newer one does not speak, and the
  // two paths differ; in every other run it is.
  lemma NewestPathReadBackIff(u: Text, s: Sys, es: seq<Event>)
    requires Initial(s) && IdsAreText(u) && LastStart(es).Some?
    ensures var t, (id, started) := Exec(u, s, es), LastStart(es).value;
            && t.last == LastStart(es) && ValidId(id) && ReadRecord(u, t.files).Some?
            && (ReadRecord(u, t.files).value.path == NewestPath(u, t)
                <==> (Names(t.lastSide, id) && t.sideNewer != Speaks(u, t.lastSide, id) ==>
                        Trim(u, t.lastSide.value.1) == AsRead(u, id, started)))
  {
    ReadBackIs(u, s, es);
    hide Exec, Initial, LastStart, ReadRecord, Trim, AsRead, ValidId;
  }

  lemma {:induction false} ExecFrom(u: Text, s: Sys, e: Event, es: seq<Event>)
    ensures Exec(u, s, [e] + es) == Exec(u, Next(u, s, e), es)
    decreases |es|
  {
    var all := [e] + es;
    hide Next;
    if es == [] {
      assert all == [e] && [e][..0] == [];
      assert Exec(u, s, []) == s;
    } else {
      var n := |es| - 1;
      assert all[..|all| - 1] == [e] + es[..n] && all[|all| - 1] == es[n];
      ExecFrom(u, s, e, es[..n]);
    }
  }

  // The sidecar is not always the fresher of the two: a session that starts again under its own
  // id, with a new path, is still read back with the path an earlier Stop recorded.
  lemma RestartKeepsStalePath(u: Text, s: Sys, id: string, first: string, stopped: string, restarted: string)
    requires Initial(s) && IdsAreText(u) && ValidId(id) && PathOk(stopped) && Trim(u, stopped) != ""
    requires |id| + |stopped| + 2 <= MAX_RECORD_BYTES && AsRead(u, id, first) != stopped
    ensures var es := [SessionStart(id, first, true)]
                      + [StopBegin(id, stopped), StopReadId(0, true), StopReadSidecar(0, true), StopWrite(0, true)]
                      + [SessionStart(id, restarted, true)];
            && LastStart(es) == Some((id, restarted))
            && ReadRecord(u, Exec(u, s, es).files) == Some(Record(id, Trim(u, stopped)))
  {
    var a, z := SessionStart(id, first, true), SessionStart(id, restarted, true);
    var four := [StopBegin(id, stopped), StopReadId(0, true), StopReadSidecar(0, true), StopWrite(0, true)];
    var s1 := Next(u, s, a);
    assert s1.files == Files(Some(Format(id, first)), None) && s1.stops == [];
    var es := [a] + four + [z];
    assert es[|es| - 1] == z;
    StoppedOnce(u, s1.files, id, first, stopped);
    hide ParseRecord, Format, ReadLimited, ReadRecord, Exec, ValidId, Trim, StopAlone, AsRead;
    ExecFrom(u, s, a, four);
    StopStepsAlone(u, s1, id, stopped, true);
    ExecLast(u, s, [a] + four, z);
    SidecarWins(u, Exec(u, s, es).files, id, restarted, stopped);
  }

  lemma StoppedOnce(u: Text, f: Files, id: string, first: string, stopped: string)
    requires IdsAreText(u) && ValidId(id) && PathOk(stopped) && AsRead(u, id, first) != stopped
    requires f == Files(Some(Format(id, first)), None)
    ensures StopAlone(u, f, id, stopped, true) == f.(sidecar := Some(Format(id, stopped)))
  {
    FormatParses(u, id, first);
    hide ParseRecord, Format, ReadLimited, Trim, AsRead;
  }

  lemma ExecLast(u: Text, s: Sys, es: seq<Event>, e: Event)
    ensures Exec(u, s, es + [e]) == Next(u, Exec(u, s, es), e)
  {
    assert (es + [e])[..|es|] == es;
  }

  // ---------------------------------------------------------------- the hook processes

  class SessionFiles {
    var idFile: Option<string>
    var sidecar: Option<string>

    function View(): Files
      reads this
    {
      Files(idFile, sidecar)
    }

    // writeSessionFile; diskOk says whether the atomic replacement succeeds.
    method WriteSessionFile(id: string, path: string, diskOk: bool) returns (ok: bool)
      modifies this
      ensures View() == (if ValidId(id) && diskOk then old(View()).(idFile := Some(Format(id, path))) else old(View()))
      ensures ok == (!ValidId(id) || diskOk)
    {
      if id == "" || !ValidId(id) {
        return true;
      }
      var body := id + "\n";
      if path != "" && '\n' !in path && '\r' !in path {
        body := body + path + "\n";
      }
      if !diskOk {
        return false;
      }
      assert body == Format(id, path);
      idFile := Some(body);
      return true;
    }

    method ReadPersistedSession(u: Text) returns (r: Option<Record>)
      ensures r == ReadRecord(u, View())
    {
      if idFile.None? {
        return None;
      }
      var rec := ParseRecord(u, ReadLimited(idFile.value));
      var side := ReadSidecar(u, sidecar);
      if side.path != "" && side.id == rec.id {
        rec := rec.(path := side.path);
      }
      return Some(rec);
    }

    method RefreshTranscriptPath(u: Text, sid: string, path: string, diskOk: bool)
      modifies this
      ensures View() == StopAlone(u, old(View()), sid, path, diskOk)
    {
      if sid == "" || path == "" {
        return;
      }
      if !ValidId(sid) || '\n' in path || '\r' in path {
        return;
      }
      var rec := ReadPersistedSession(u);
      if rec.None? || rec.value.id != sid || rec.value.path == path {
        return;
      }
      if diskOk {
        sidecar := Some(sid + "\n" + path + "\n");
        assert sid + "\n" + path + "\n" == Format(sid, path);
      }
    }
  }
}
