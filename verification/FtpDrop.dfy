/**
 The FTP drop (`ingestion.service.ts`): files are read from incoming, entered in a ledger keyed
 by a hash of name and content (injective, so the pair stands for the hash), ingested, and moved
 to the directory that tells the outcome. One scanner; any database or file operation may throw,
 and a crash is a run in which every later operation throws.
 */
module FtpDrop {
  import opened Wrappers
  import opened Joined

  type Content = string

  datatype Dir = Incoming | Processed(day: int) | Failed | Unknown

  datatype Path = Path(dir: Dir, name: string)

  datatype Key = Key(name: string, content: Content)

  datatype Status = Received | Done | Broken | UnknownGateway

  datatype Entry = Entry(status: Status, path: Path)

  datatype State = State(files: map<Path, Content>, ledger: map<Key, Entry>, ingested: seq<Key>)

  const EMPTY := State(map[], map[], [])

  /**
   What the file turns out to be when it is handled. `BadCsv`: its conversion throws, before anything
   is ingested. `Rejected`: the ingest is called and throws.
   */
  datatype Kind = NotAckcio | NoGateway | BadCsv | Rejected | Good

  predicate Ingests(kind: Kind) {
    kind == Rejected || kind == Good
  }

  /**
   Which operations throw: the ledger insert, the gateway lookup, the first and second move, the
   first and second ledger update.
   */
  datatype Faults = Faults(create: bool, lookup: bool, move: bool, update: bool, moveAgain: bool, updateAgain: bool)

  const NO_FAULTS := Faults(false, false, false, false, false, false)

  // ─── A destination that clobbers nothing ───────────────────────────────────────────

  function LastDot(name: string): int {
    if name == "" then -1 else if name[|name| - 1] == '.' then |name| - 1 else LastDot(name[..|name| - 1])
  }

  /** Where `path.extname` begins. */
  function StemLength(name: string): (n: nat)
    ensures n <= |name|
  {
    LastDotBound(name);
    if LastDot(name) <= 0 || name == ".." then |name| else LastDot(name)
  }

  lemma {:induction false} LastDotBound(name: string)
    ensures -1 <= LastDot(name) < |name|
  {
    if name != "" {
      LastDotBound(name[..|name| - 1]);
    }
  }

  function Candidate(name: string, n: nat): string {
    if n == 0 then name
    else name[..StemLength(name)] + ("-" + (Decimal(n) + name[StemLength(name)..]))
  }

  lemma Inserted(stem: string, a: string, b: string, ext: string)
    ensures stem + ("-" + (a + ext)) == stem + ("-" + (b + ext)) ==> a == b
    ensures |stem + ("-" + (a + ext))| > |stem| + |ext|
  {
    var s, t := stem + ("-" + (a + ext)), stem + ("-" + (b + ext));
    if s == t {
      assert |a| == |b|;
      assert s[|stem| + 1..|stem| + 1 + |a|] == a;
      assert t[|stem| + 1..|stem| + 1 + |a|] == b;
    }
  }

  lemma CandidatesDiffer(name: string, m: nat, n: nat)
    requires m < n
    ensures Candidate(name, m) != Candidate(name, n)
  {
    DecimalReads(m);
    DecimalReads(n);
    Inserted(name[..StemLength(name)], Decimal(n), Decimal(m), name[StemLength(name)..]);
  }

  /** Candidates that are all taken are no more than the names taken. */
  lemma {:induction false} CandidatesFit(taken: set<string>, name: string, n: nat)
    requires forall k: nat :: k < n ==> Candidate(name, k) in taken
    ensures n <= |taken|
  {
    if n > 0 {
      var last := Candidate(name, n - 1);
      forall k: nat | k < n - 1 ensures Candidate(name, k) in taken - {last} {
        CandidatesDiffer(name, k, n - 1);
      }
      CandidatesFit(taken - {last}, name, n - 1);
    }
  }

  function FirstFree(taken: set<string>, name: string, n: nat): (free: nat)
    requires forall k: nat :: k < n ==> Candidate(name, k) in taken
    ensures n <= free <= |taken| && Candidate(name, free) !in taken
    ensures forall k: nat :: k < free ==> Candidate(name, k) in taken
    decreases |taken| - n
  {
    CandidatesFit(taken, name, n);
    if Candidate(name, n) in taken then
      CandidatesFit(taken, name, n + 1);
      FirstFree(taken, name, n + 1)
    else n
  }

  ghost predicate AllTaken(taken: set<string>, name: string, n: nat) {
    forall k: nat :: k < n ==> Candidate(name, k) in taken
  }

  lemma OneMoreTaken(taken: set<string>, name: string, n: nat)
    requires AllTaken(taken, name, n) && Candidate(name, n) in taken
    ensures AllTaken(taken, name, n + 1) && n + 1 <= |taken|
  {
    CandidatesFit(taken, name, n + 1);
  }

  lemma FirstFreeIs(taken: set<string>, name: string, n: nat)
    requires AllTaken(taken, name, n) && Candidate(name, n) !in taken
    ensures FirstFree(taken, name, 0) == n
  {
    var free := FirstFree(taken, name, 0);
  }

  function Names(files: map<Path, Content>, dir: Dir): set<string> {
    set p | p in files && p.dir == dir :: p.name
  }

  function Destination(files: map<Path, Content>, dir: Dir, name: string): Path {
    Path(dir, Candidate(name, FirstFree(Names(files, dir), name, 0)))
  }

  function Moved(files: map<Path, Content>, src: Path, dest: Path): map<Path, Content>
    requires src in files
  {
    (files - {src})[dest := files[src]]
  }

  lemma {:induction false} LastDotIs(stem: string, ext: string)
    requires '.' !in ext
    ensures LastDot(stem + ("." + ext)) == |stem|
    decreases |ext|
  {
    var name := stem + ("." + ext);
    if ext == "" {
      assert name[|name| - 1] == '.';
    } else {
      var n := |ext| - 1;
      assert name[|name| - 1] == ext[n] && ext[n] in ext;
      assert name[..|name| - 1] == stem + ("." + ext[..n]);
      assert forall c <- ext[..n] :: c in ext;
      LastDotIs(stem, ext[..n]);
    }
  }

  lemma {:induction false} NoDot(name: string)
    requires '.' !in name
    ensures LastDot(name) == -1
  {
    if name != "" {
      assert name[|name| - 1] in name && forall c <- name[..|name| - 1] :: c in name;
      NoDot(name[..|name| - 1]);
    }
  }

  /**
   The number of a further candidate goes before the extension, what stands from the last dot on,
   unless the dot leads.
   */
  lemma NumberBeforeExtension(stem: string, ext: string, n: nat)
    requires stem != "" && '.' !in ext && stem + ("." + ext) != ".." && n > 0
    ensures Candidate(stem + ("." + ext), n) == stem + ("-" + (Decimal(n) + ("." + ext)))
  {
    var name := stem + ("." + ext);
    LastDotIs(stem, ext);
    assert name[..|stem|] == stem && name[|stem|..] == "." + ext;
  }

  lemma NumberAtEnd(name: string, n: nat)
    requires '.' !in name[if name == "" then 0 else 1..] && n > 0
    ensures Candidate(name, n) == name + ("-" + Decimal(n))
  {
    if '.' in name {
      assert name == "" + ("." + name[1..]);
      LastDotIs("", name[1..]);
    } else {
      NoDot(name);
    }
    assert StemLength(name) == |name|;
    assert name[..|name|] == name && name[|name|..] == "";
    assert Decimal(n) + "" == Decimal(n);
  }

  /** A file keeps its name where that is free. */
  lemma KeepsFreeName(files: map<Path, Content>, dir: Dir, name: string)
    requires Path(dir, name) !in files
    ensures Destination(files, dir, name) == Path(dir, name)
  {
    assert name !in Names(files, dir);
  }

  // ─── Specification of handling one file ────────────────────────────────────────────

  function DirOf(status: Status, day: int): Dir {
    match status case Done => Processed(day) case Broken => Failed case _ => Unknown
  }

  /** Move, then update the ledger; false when one of them threw. */
  function Finish(s: State, src: Path, key: Key, status: Status, day: int, moveThrows: bool,
                  updateThrows: bool): (State, bool) {
    if moveThrows || src !in s.files then (s, false)
    else
      var dest := Destination(s.files, DirOf(status, day), src.name);
      var moved := s.(files := Moved(s.files, src, dest));
      if updateThrows then (moved, false) else (moved.(ledger := s.ledger[key := Entry(status, dest)]), true)
  }

  /** The attempt to finish as processed and, when that throws, the attempt to finish as failed. */
  function FinishGood(s: State, src: Path, key: Key, day: int, f: Faults): State {
    var (finished, ok) := Finish(s, src, key, Done, day, f.move, f.update);
    if ok then finished else Finish(finished, src, key, Broken, day, f.moveAgain, f.updateAgain).0
  }

  function Handle(s: State, name: string, kind: Kind, day: int, f: Faults): State {
    var src := Path(Incoming, name);
    if src !in s.files || f.create then s
    else
      var key := Key(name, s.files[src]);
      if key in s.ledger then
        if f.move then s else s.(files := Moved(s.files, src, Destination(s.files, Processed(day), name)))
      else
        var entered := s.(ledger := s.ledger[key := Entry(Received, src)]);
        if kind == NotAckcio then Finish(entered, src, key, Broken, day, f.move, f.update).0
        else if f.lookup then entered
        else if kind == NoGateway then Finish(entered, src, key, UnknownGateway, day, f.move, f.update).0
        else
          var called := entered.(ingested := s.ingested + if Ingests(kind) then [key] else []);
          if kind != Good then Finish(called, src, key, Broken, day, f.moveAgain, f.updateAgain).0
          else FinishGood(called, src, key, day, f)
  }

  datatype Op =
    | Upload(name: string, content: Content)
    | Process(name: string, kind: Kind, day: int, faults: Faults)

  function Apply(s: State, op: Op): State {
    match op
    case Upload(name, content) => s.(files := s.files[Path(Incoming, name) := content])
    case Process(name, kind, day, f) => Handle(s, name, kind, day, f)
  }

  function RunFrom(s: State, ops: seq<Op>): State {
    if ops == [] then s else Apply(RunFrom(s, ops[..|ops| - 1]), ops[|ops| - 1])
  }

  // ─── The service ───────────────────────────────────────────────────────────────────

  /** `Skipped`: still young; `Threw`: reported as failed and left for the next pass. */
  datatype Outcome = Skipped | Threw | Duplicate | Ended(status: Status)

  /** What handling one file reports. */
  function OutcomeOf(s: State, name: string, kind: Kind, day: int, f: Faults): Outcome {
    var src := Path(Incoming, name);
    if src !in s.files || f.create then Threw
    else if Key(name, s.files[src]) in s.ledger then (if f.move then Threw else Duplicate)
    else if kind == NotAckcio then (if f.move || f.update then Threw else Ended(Broken))
    else if f.lookup then Threw
    else if kind == NoGateway then (if f.move || f.update then Threw else Ended(UnknownGateway))
    else if kind == Good && !f.move && !f.update then Ended(Done)
    else if kind == Good && !f.move then Threw  // moved already, so the second move throws
    else if f.moveAgain || f.updateAgain then Threw
    else Ended(Broken)
  }

  class IngestionService {
    var files: map<Path, Content>
    var ledger: map<Key, Entry>
    var ingested: seq<Key>

    ghost function Abstract(): State
      reads this
    {
      State(files, ledger, ingested)
    }

    constructor ()
      ensures Abstract() == EMPTY
    {
      files, ledger, ingested := map[], map[], [];
    }

    /** Probes until a name is free; at most one probe more than the directory has files. */
    method UniqueDestination(dir: Dir, fileName: string) returns (dest: Path, probes: nat)
      ensures dest == Destination(files, dir, fileName) && dest !in files
      ensures 1 <= probes <= |Names(files, dir)| + 1
    {
      ghost var taken := Names(files, dir);
      var stem, ext := fileName[..StemLength(fileName)], fileName[StemLength(fileName)..];
      var candidate := Path(dir, fileName);
      var n := 0;
      while candidate in files
        invariant candidate == Path(dir, Candidate(fileName, n))
        invariant AllTaken(taken, fileName, n) && n <= |taken|
        decreases |taken| - n
      {
        assert candidate.name in taken;
        OneMoreTaken(taken, fileName, n);
        n := n + 1;
        candidate := Path(dir, stem + ("-" + (Decimal(n) + ext)));
      }
      assert Candidate(fileName, n) !in taken;
      FirstFreeIs(taken, fileName, n);
      return candidate, n + 1;
    }

    method MoveTo(dir: Dir, src: Path, throws: bool) returns (dest: Option<Path>)
      modifies this`files
      ensures dest.None? <==> throws || src !in old(files)
      ensures dest.None? ==> files == old(files)
      ensures dest.Some?
              ==> dest.value == Destination(old(files), dir, src.name) && files == Moved(old(files), src, dest.value)
    {
      var target, probes := UniqueDestination(dir, src.name);
      if throws || src !in files {
        return None;
      }
      files := (files - {src})[target := files[src]];
      return Some(target);
    }

    method FinishFile(src: Path, key: Key, status: Status, day: int, moveThrows: bool, updateThrows: bool)
      returns (ok: bool)
      modifies this`files, this`ledger
      ensures (Abstract(), ok) == Finish(old(Abstract()), src, key, status, day, moveThrows, updateThrows)
    {
      var dir := if status == Done then Processed(day) else if status == Broken then Failed else Unknown;
      var dest := MoveTo(dir, src, moveThrows);
      if dest.None? || updateThrows {
        return false;
      }
      ledger := ledger[key := Entry(status, dest.value)];
      return true;
    }

    method ProcessFile(name: string, kind: Kind, day: int, f: Faults) returns (outcome: Outcome)
      modifies this
      ensures Abstract() == Handle(old(Abstract()), name, kind, day, f)
      ensures outcome == OutcomeOf(old(Abstract()), name, kind, day, f)
      ensures outcome.Ended? ==> Path(Incoming, name) in old(files)
      ensures outcome.Ended? ==>
                var key := Key(name, old(files)[Path(Incoming, name)]);
                key in ledger && ledger[key].status == outcome.status
    {
      var src := Path(Incoming, name);
      if src !in files {
        return Threw;
      }
      var key := Key(name, files[src]);
      if f.create {
        return Threw;
      }
      if key in ledger {
        var dest := MoveTo(Processed(day), src, f.move);
        return if dest.Some? then Duplicate else Threw;
      }
      ledger := ledger[key := Entry(Received, src)];
      if kind == NotAckcio {
        var ok := FinishFile(src, key, Broken, day, f.move, f.update);
        return if ok then Ended(Broken) else Threw;
      }
      if f.lookup {
        return Threw;
      }
      if kind == NoGateway {
        var ok := FinishFile(src, key, UnknownGateway, day, f.move, f.update);
        return if ok then Ended(UnknownGateway) else Threw;
      }
      if Ingests(kind) {
        ingested := ingested + [key];
      }
      if kind == Good {
        var ok := FinishFile(src, key, Done, day, f.move, f.update);
        if ok {
          return Ended(Done);
        }
      }
      var ok := FinishFile(src, key, Broken, day, f.moveAgain, f.updateAgain);
      return if ok then Ended(Broken) else Threw;
    }

    /** One pass over a directory listing; files still young are left for the next one, what is gone is passed over. */
    method ScanOnce(names: seq<string>, young: set<string>, kind: string -> Kind, day: int, faults: string -> Faults)
      returns (results: seq<(string, Outcome)>)
      modifies this
      ensures (Abstract(), results) == Scan(old(Abstract()), names, young, kind, day, faults)
    {
      results := [];
      for i := 0 to |names|
        invariant (Abstract(), results) == Scan(old(Abstract()), names[..i], young, kind, day, faults)
      {
        assert names[..i + 1][..i] == names[..i];
        if Path(Incoming, names[i]) in files {
          if names[i] in young {
            results := results + [(names[i], Skipped)];
          } else {
            var outcome := ProcessFile(names[i], kind(names[i]), day, faults(names[i]));
            results := results + [(names[i], outcome)];
          }
        }
      }
      assert names[..|names|] == names;
    }
  }

  /** A pass: what it makes of the state, and what it reports. */
  function Scan(s: State, names: seq<string>, young: set<string>, kind: string -> Kind, day: int,
                faults: string -> Faults)
    : (State, seq<(string, Outcome)>)
  {
    if names == [] then (s, [])
    else
      var n := |names| - 1;
      var name, (before, results) := names[n], Scan(s, names[..n], young, kind, day, faults);
      if Path(Incoming, name) !in before.files then (before, results)
      else if name in young then (before, results + [(name, Skipped)])
      else (Handle(before, name, kind(name), day, faults(name)),
            results + [(name, OutcomeOf(before, name, kind(name), day, faults(name)))])
  }

  /** What a fault-free pass reports of a new file is where it ended up, for good or ill. */
  lemma OutcomeTells(s: State, name: string, kind: Kind, day: int, f: Faults)
    ensures var outcome := OutcomeOf(s, name, kind, day, f);
            && (outcome.Ended? ==>
                  Path(Incoming, name) in s.files
                  && var key := Key(name, s.files[Path(Incoming, name)]);
                     key in Handle(s, name, kind, day, f).ledger
                       && Handle(s, name, kind, day, f).ledger[key].status == outcome.status)
            && (f == NO_FAULTS && Path(Incoming, name) in s.files ==> outcome != Threw)
            && (outcome == Duplicate
                ==>
                  && Handle(s, name, kind, day, f).ledger == s.ledger
                  && Handle(s, name, kind, day, f).ingested == s.ingested)
  {}

  // ─── Moves ─────────────────────────────────────────────────────────────────────────

  /** How many files anywhere hold this content. */
  function Copies(files: map<Path, Content>, c: Content): nat {
    |set p | p in files && files[p] == c|
  }

  lemma Swapped<T>(s: set<T>, x: T, y: T)
    requires x in s && y !in s
    ensures |s - {x} + {y}| == |s|
  {}

  lemma MovedCopies(files: map<Path, Content>, src: Path, dest: Path, c: Content)
    requires src in files && dest !in files
    ensures Copies(Moved(files, src, dest), c) == Copies(files, c)
  {
    var before := set p | p in files && files[p] == c;
    var moved := Moved(files, src, dest);
    var after := set p | p in moved && moved[p] == c;
    forall p ensures p in moved && moved[p] == c
      <==> if p == dest then files[src] == c else p != src && p in files && files[p] == c {
    }
    if files[src] == c {
      assert after == before - {src} + {dest};
      Swapped(before, src, dest);
    } else {
      assert after == before;
    }
  }

  lemma DestinationFree(files: map<Path, Content>, dir: Dir, name: string)
    ensures Destination(files, dir, name) !in files && Destination(files, dir, name).dir == dir
  {
    var dest := Destination(files, dir, name);
    assert dest in files ==> dest.name in Names(files, dir);
  }

  /** What one or two attempted moves may do to the files: nothing, or one rename to a free place outside incoming. */
  ghost predicate Renamed(files: map<Path, Content>, after: map<Path, Content>, src: Path) {
    after == files || exists dest ::
                        src in files && dest !in files && dest.dir != Incoming && after == Moved(files, src, dest)
  }

  lemma FinishRenames(s: State, src: Path, key: Key, status: Status, day: int, m: bool, u: bool)
    requires src.dir == Incoming
    ensures Renamed(s.files, Finish(s, src, key, status, day, m, u).0.files, src)
    ensures Finish(s, src, key, status, day, m, u).0.files != s.files
            ==> src !in Finish(s, src, key, status, day, m, u).0.files
  {
    DestinationFree(s.files, DirOf(status, day), src.name);
  }

  lemma GoodRenames(s: State, src: Path, key: Key, day: int, f: Faults)
    requires src.dir == Incoming
    ensures Renamed(s.files, FinishGood(s, src, key, day, f).files, src)
  {
    var finished := Finish(s, src, key, Done, day, f.move, f.update).0;
    FinishRenames(s, src, key, Done, day, f.move, f.update);
    FinishRenames(finished, src, key, Broken, day, f.moveAgain, f.updateAgain);
  }

  lemma HandleRenames(s: State, name: string, kind: Kind, day: int, f: Faults)
    ensures Renamed(s.files, Handle(s, name, kind, day, f).files, Path(Incoming, name))
  {
    var src := Path(Incoming, name);
    if src in s.files && !f.create {
      var key := Key(name, s.files[src]);
      if key in s.ledger {
        DestinationFree(s.files, Processed(day), name);
      } else {
        var entered := s.(ledger := s.ledger[key := Entry(Received, src)]);
        var called := entered.(ingested := s.ingested + if Ingests(kind) then [key] else []);
        match kind
        case NotAckcio => FinishRenames(entered, src, key, Broken, day, f.move, f.update);
        case NoGateway => FinishRenames(entered, src, key, UnknownGateway, day, f.move, f.update);
        case BadCsv => FinishRenames(called, src, key, Broken, day, f.moveAgain, f.updateAgain);
        case Rejected => FinishRenames(called, src, key, Broken, day, f.moveAgain, f.updateAgain);
        case Good => GoodRenames(called, src, key, day, f);
      }
    }
  }

  /** Handling a file, whatever throws, conserves the multiset of contents and overwrites no file. */
  lemma HandlingConserves(s: State, name: string, kind: Kind, day: int, f: Faults, c: Content, other: Path)
    ensures Copies(Handle(s, name, kind, day, f).files, c) == Copies(s.files, c)
    ensures other in s.files && other != Path(Incoming, name) ==>
              other in Handle(s, name, kind, day, f).files
                && Handle(s, name, kind, day, f).files[other] == s.files[other]
  {
    var src := Path(Incoming, name);
    HandleRenames(s, name, kind, day, f);
    var after := Handle(s, name, kind, day, f).files;
    if after != s.files {
      var dest :| src in s.files && dest !in s.files && dest.dir != Incoming && after == Moved(s.files, src, dest);
      MovedCopies(s.files, src, dest, c);
    }
  }

  // ─── Ingested at most once ─────────────────────────────────────────────────────────

  ghost predicate Distinct(keys: seq<Key>) {
    forall i, j :: 0 <= i < j < |keys| ==> keys[i] != keys[j]
  }

  /** Whatever is ingested has a ledger row, and nothing is ingested twice. */
  ghost predicate Once(s: State) {
    Distinct(s.ingested) && forall k <- s.ingested :: k in s.ledger
  }

  /** What handling does to the ledger and the ingest calls: at most one new key, the same in both. */
  lemma HandleEnters(s: State, name: string, kind: Kind, day: int, f: Faults)
    ensures var s' := Handle(s, name, kind, day, f);
            && s.ledger.Keys <= s'.ledger.Keys
            && (s'.ingested == s.ingested
                || (Path(Incoming, name) in s.files
                    && var key := Key(name, s.files[Path(Incoming, name)]);
                       key !in s.ledger && key in s'.ledger && s'.ingested == s.ingested + [key]))
  {}

  /**
   When exactly a pass over one file, with any faults, ingests: the file is there and new, its name
   and gateway are known, its CSV converts, and neither the ledger insert nor the lookup throws.
   */
  lemma HandleIngests(s: State, name: string, kind: Kind, day: int, f: Faults)
    ensures Handle(s, name, kind, day, f).ingested != s.ingested <==>
              && Path(Incoming, name) in s.files && Key(name, s.files[Path(Incoming, name)]) !in s.ledger
              && kind in {Rejected, Good} && !f.create && !f.lookup
  {
    if Path(Incoming, name) in s.files {
      var key := Key(name, s.files[Path(Incoming, name)]);
      assert s.ingested + [key] != s.ingested;
    }
  }

  lemma {:induction false} OnceAlways(s: State, ops: seq<Op>)
    requires Once(s)
    ensures Once(RunFrom(s, ops)) && s.ledger.Keys <= RunFrom(s, ops).ledger.Keys
  {
    if ops != [] {
      var n := |ops| - 1;
      OnceAlways(s, ops[..n]);
      var mid := RunFrom(s, ops[..n]);
      if ops[n].Process? {
        HandleEnters(mid, ops[n].name, ops[n].kind, ops[n].day, ops[n].faults);
      }
    }
  }

  /** In any run, with any faults and any uploads in between, a (name, content) pair is ingested at most once. */
  lemma AtMostOnce(ops: seq<Op>)
    ensures Distinct(RunFrom(EMPTY, ops).ingested)
  {
    OnceAlways(EMPTY, ops);
  }

  /** A file whose ledger row exists is ingested no more and no less ever after. */
  lemma {:induction false} NeverRetried(s: State, ops: seq<Op>, key: Key)
    requires key in s.ledger
    ensures key in RunFrom(s, ops).ledger
    ensures key in RunFrom(s, ops).ingested <==> key in s.ingested
  {
    if ops != [] {
      var n := |ops| - 1;
      NeverRetried(s, ops[..n], key);
      var mid := RunFrom(s, ops[..n]);
      if ops[n].Process? {
        HandleEnters(mid, ops[n].name, ops[n].kind, ops[n].day, ops[n].faults);
      }
    }
  }

  lemma NothingThrows(s: State, name: string, kind: Kind, day: int)
    requires Path(Incoming, name) in s.files && Key(name, s.files[Path(Incoming, name)]) !in s.ledger && Ingests(kind)
    ensures Handle(s, name, kind, day, NO_FAULTS).ingested == s.ingested + [Key(name, s.files[Path(Incoming, name)])]
  {}

  /**
   What the next pass is worth: after a pass with any faults over a new file, one more without
   faults leaves it ingested exactly if the gateway is known, the CSV converts, and the first pass
   threw at the ledger insert or got past the lookup. The two passes may fall on different days.
   */
  lemma RetryIngests(ops: seq<Op>, name: string, kind: Kind, day: int, f: Faults, nextDay: int)
    requires var s := RunFrom(EMPTY, ops);
             Path(Incoming, name) in s.files && Key(name, s.files[Path(Incoming, name)]) !in s.ledger
    ensures var s := RunFrom(EMPTY, ops);
            var retried := Handle(Handle(s, name, kind, day, f), name, kind, nextDay, NO_FAULTS);
            Key(name, s.files[Path(Incoming, name)]) in retried.ingested
            <==> kind in {Rejected, Good} && (f.create || !f.lookup)
  {
    var s := RunFrom(EMPTY, ops);
    var first := Handle(s, name, kind, day, f);
    var key := Key(name, s.files[Path(Incoming, name)]);
    OnceAlways(EMPTY, ops);
    assert key !in s.ingested;
    HandleIngests(s, name, kind, day, f);
    HandleEnters(s, name, kind, day, f);
    HandleEnters(first, name, kind, nextDay, NO_FAULTS);
    HandleIngests(first, name, kind, nextDay, NO_FAULTS);
    if f.create && Ingests(kind) {
      NothingThrows(s, name, kind, nextDay);
    }
  }

  const LOOKUP_THROWS := NO_FAULTS.(lookup := true)

  /**
   So a file is lost by one throw between the ledger insert and the ingest: the pass reports it as
   failed and leaves it in incoming for the next, and no continuation ever ingests it.
   */
  lemma LookupLoses(name: string, content: Content, kind: Kind, day: int, later: seq<Op>)
    requires kind != NotAckcio
    ensures var uploaded := RunFrom(EMPTY, [Upload(name, content)]);
            var lost := Handle(uploaded, name, kind, day, LOOKUP_THROWS);
            && OutcomeOf(uploaded, name, kind, day, LOOKUP_THROWS) == Threw
            && Path(Incoming, name) in lost.files && lost.files[Path(Incoming, name)] == content
            && Key(name, content) !in RunFrom(lost, later).ingested
  {
    assert RunFrom(EMPTY, []) == EMPTY;
    var uploaded := RunFrom(EMPTY, [Upload(name, content)]);
    NeverRetried(Handle(uploaded, name, kind, day, LOOKUP_THROWS), later, Key(name, content));
  }

  // ─── Runs without faults ───────────────────────────────────────────────────────────

  /** A finished file rests, with its content, where its ledger row says and its status demands. */
  ghost predicate AtRest(s: State, key: Key) {
    && key in s.ledger && s.ledger[key].status != Received
    && s.ledger[key].path in s.files && s.files[s.ledger[key].path] == key.content
    && match s.ledger[key].path.dir
       case Processed(_) => s.ledger[key].status == Done
       case Failed => s.ledger[key].status == Broken
       case Unknown => s.ledger[key].status == UnknownGateway
       case Incoming => false
  }

  ghost predicate Settled(s: State) {
    forall k <- s.ledger :: AtRest(s, k)
  }

  predicate FaultFree(ops: seq<Op>) {
    forall i :: 0 <= i < |ops| && ops[i].Process? ==> ops[i].faults == NO_FAULTS
  }

  /** With nothing thrown, a new file is entered, ingested if its gateway is known, and put to rest. */
  lemma HandleNew(s: State, name: string, kind: Kind, day: int)
    requires Path(Incoming, name) in s.files && Key(name, s.files[Path(Incoming, name)]) !in s.ledger
    ensures var s' := Handle(s, name, kind, day, NO_FAULTS);
            var key := Key(name, s.files[Path(Incoming, name)]);
            var status := match kind case NoGateway => UnknownGateway case Good => Done case _ => Broken;
            && s'.ledger == s.ledger[key := Entry(status, Destination(s.files, DirOf(status, day), name))]
            && s'.files == Moved(s.files, Path(Incoming, name), Destination(s.files, DirOf(status, day), name))
            && s'.ingested == s.ingested + (if Ingests(kind) then [key] else [])
            && AtRest(s', key)
  {
    DestinationFree(s.files, Failed, name);
    DestinationFree(s.files, Unknown, name);
    DestinationFree(s.files, Processed(day), name);
  }

  lemma {:induction false} SettledAlways(ops: seq<Op>)
    requires FaultFree(ops)
    ensures Settled(RunFrom(EMPTY, ops))
  {
    if ops != [] {
      var n := |ops| - 1;
      var s, op := RunFrom(EMPTY, ops[..n]), ops[n];
      SettledAlways(ops[..n]);
      if op.Process? && Path(Incoming, op.name) in s.files {
        var src := Path(Incoming, op.name);
        var key := Key(op.name, s.files[src]);
        if key !in s.ledger {
          HandleNew(s, op.name, op.kind, op.day);
        }
        forall k | k in s.ledger ensures AtRest(Apply(s, op), k) {
          HandlingConserves(s, op.name, op.kind, op.day, NO_FAULTS, "", s.ledger[k].path);
          assert AtRest(s, k);
        }
      }
    }
  }

  /**
   In a run where nothing throws: handling a new file leaves it ingested exactly once if its gateway
   is known and its CSV can be converted, and never otherwise; and ledger status and resting
   directory agree for every file ever entered.
   */
  lemma ExactlyOnce(ops: seq<Op>, name: string, kind: Kind, day: int)
    requires FaultFree(ops)
    requires var s := RunFrom(EMPTY, ops);
             Path(Incoming, name) in s.files && Key(name, s.files[Path(Incoming, name)]) !in s.ledger
    ensures var s := RunFrom(EMPTY, ops);
            var key := Key(name, s.files[Path(Incoming, name)]);
            var after := ops + [Process(name, kind, day, NO_FAULTS)];
            && Settled(RunFrom(EMPTY, after))
            && multiset(RunFrom(EMPTY, after).ingested)[key] == if kind in {Rejected, Good} then 1 else 0
  {
    var s, op := RunFrom(EMPTY, ops), Process(name, kind, day, NO_FAULTS);
    var key := Key(name, s.files[Path(Incoming, name)]);
    assert (ops + [op])[..|ops|] == ops;
    SettledAlways(ops + [op]);
    HandleNew(s, name, kind, day);
    OnceAlways(EMPTY, ops);
    assert key !in s.ingested && multiset(s.ingested)[key] == 0;
  }

  // ─── A whole pass ──────────────────────────────────────────────────────────────────

  predicate NamesDiffer(names: seq<string>) {
    forall i, j :: 0 <= i < j < |names| ==> names[i] != names[j]
  }

  /** For this name the two states do not differ: the file in incoming, its ledger row, and whether it was ingested. */
  ghost predicate SameFor(s: State, t: State, name: string) {
    var src := Path(Incoming, name);
    && (src in s.files <==> src in t.files) && (src in s.files ==> s.files[src] == t.files[src])
    && forall c :: SameEntry(s, t, Key(name, c))
  }

  ghost predicate SameEntry(s: State, t: State, key: Key) {
    && (key in s.ledger <==> key in t.ledger) && (key in s.ledger ==> s.ledger[key] == t.ledger[key])
    && (key in s.ingested <==> key in t.ingested)
  }

  lemma FinishEntry(s: State, src: Path, key: Key, status: Status, day: int, m: bool, u: bool, k: Key)
    requires k != key
    ensures SameEntry(s, Finish(s, src, key, status, day, m, u).0, k)
  {}

  lemma GoodEntry(s: State, src: Path, key: Key, day: int, f: Faults, k: Key)
    requires k != key
    ensures SameEntry(s, FinishGood(s, src, key, day, f), k)
  {
    var finished := Finish(s, src, key, Done, day, f.move, f.update).0;
    FinishEntry(s, src, key, Done, day, f.move, f.update, k);
    FinishEntry(finished, src, key, Broken, day, f.moveAgain, f.updateAgain, k);
  }

  lemma HandleEntry(s: State, name: string, kind: Kind, day: int, f: Faults, k: Key)
    requires k.name != name
    ensures SameEntry(s, Handle(s, name, kind, day, f), k)
  {
    var src := Path(Incoming, name);
    if src in s.files && !f.create && Key(name, s.files[src]) !in s.ledger {
      var key := Key(name, s.files[src]);
      var entered := s.(ledger := s.ledger[key := Entry(Received, src)]);
      var called := entered.(ingested := s.ingested + if Ingests(kind) then [key] else []);
      match kind
      case NotAckcio => FinishEntry(entered, src, key, Broken, day, f.move, f.update, k);
      case NoGateway => FinishEntry(entered, src, key, UnknownGateway, day, f.move, f.update, k);
      case Good => GoodEntry(called, src, key, day, f, k);
      case _ => FinishEntry(called, src, key, Broken, day, f.moveAgain, f.updateAgain, k);
    }
  }

  lemma HandleOther(s: State, name: string, kind: Kind, day: int, f: Faults, other: string)
    requires other != name
    ensures SameFor(s, Handle(s, name, kind, day, f), other)
  {
    HandleRenames(s, name, kind, day, f);
    forall c ensures SameEntry(s, Handle(s, name, kind, day, f), Key(other, c)) {
      HandleEntry(s, name, kind, day, f, Key(other, c));
    }
  }

  lemma SameForThrough(s: State, t: State, u: State, name: string)
    requires SameFor(s, t, name) && SameFor(t, u, name)
    ensures SameFor(s, u, name)
  {
    forall c ensures SameEntry(s, u, Key(name, c)) {
      assert SameEntry(s, t, Key(name, c)) && SameEntry(t, u, Key(name, c));
    }
  }

  /** A pass leaves alone what it does not list. */
  lemma {:induction false} ScanOther(s: State, names: seq<string>, young: set<string>, kind: string -> Kind, day: int,
                                     faults: string -> Faults, other: string)
    requires other !in names
    ensures SameFor(s, Scan(s, names, young, kind, day, faults).0, other)
  {
    if names != [] {
      var n := |names| - 1;
      ScanOther(s, names[..n], young, kind, day, faults, other);
      var before := Scan(s, names[..n], young, kind, day, faults).0;
      HandleOther(before, names[n], kind(names[n]), day, faults(names[n]), other);
      SameForThrough(s, before, Handle(before, names[n], kind(names[n]), day, faults(names[n])), other);
    }
  }

  /** What handling reports depends on nothing but the file and its ledger row. */
  lemma OutcomeSame(s: State, t: State, name: string, kind: Kind, day: int, f: Faults)
    requires SameFor(s, t, name)
    ensures OutcomeOf(s, name, kind, day, f) == OutcomeOf(t, name, kind, day, f)
  {
    var src := Path(Incoming, name);
    if src in s.files {
      assert SameEntry(s, t, Key(name, s.files[src]));
    }
  }

  /** Exactly the chosen positions, in order. */
  ghost predicate InOrder(at: seq<nat>, chosen: set<nat>) {
    && (forall k, l :: 0 <= k < l < |at| ==> at[k] < at[l])
    && forall i :: i in at <==> i in chosen
  }

  lemma InOrderMore(at: seq<nat>, chosen: set<nat>, n: nat)
    requires InOrder(at, chosen) && forall i <- chosen :: i < n
    ensures InOrder(at + [n], chosen + {n})
  {
    forall k | 0 <= k < |at| ensures at[k] < n {
      assert at[k] in at;
    }
    forall i ensures i in at + [n] <==> i in chosen + {n} {}
  }

  /** The positions in the listing of the files that are there, and of those that are not young. */
  function Present(s: State, names: seq<string>): set<nat> {
    set i: nat | i < |names| && Path(Incoming, names[i]) in s.files
  }

  function Settling(s: State, names: seq<string>, young: set<string>): set<nat> {
    set i: nat | i < |names| && Path(Incoming, names[i]) in s.files && names[i] !in young
  }

  lemma PresentMore(s: State, names: seq<string>, n: nat, young: set<string>)
    requires |names| == n + 1
    ensures Present(s, names) == Present(s, names[..n]) + if Path(Incoming, names[n]) in s.files then {n} else {}
    ensures Settling(s, names, young)
            == Settling(s, names[..n], young) + if Path(Incoming, names[n]) in s.files && names[n] !in young then {n}
              else {}
    ensures forall i <- Present(s, names[..n]) :: i < n
    ensures forall i <- Settling(s, names[..n], young) :: i < n
  {}

  /** The steps of a run, by the positions of their names in the listing. */
  ghost predicate Handles(ops: seq<Op>, handled: seq<nat>, names: seq<string>, kind: string -> Kind, day: int,
                          faults: string -> Faults) {
    |ops| == |handled|
    && forall k :: 0 <= k < |ops| ==>
         handled[k] < |names|
         && ops[k] == Process(names[handled[k]], kind(names[handled[k]]), day, faults(names[handled[k]]))
  }

  /** What is reported of one listed file: that it is young, or what handling it reports. */
  function ReportOf(s: State, name: string, young: set<string>, kind: string -> Kind, day: int,
                    faults: string -> Faults): (string, Outcome) {
    (name, if name in young then Skipped else OutcomeOf(s, name, kind(name), day, faults(name)))
  }

  ghost predicate Tells(results: seq<(string, Outcome)>, present: seq<nat>, s: State, names: seq<string>,
                        young: set<string>, kind: string -> Kind, day: int, faults: string -> Faults) {
    |results| == |present|
    && forall k :: 0 <= k < |results| ==>
         present[k] < |names| && results[k] == ReportOf(s, names[present[k]], young, kind, day, faults)
  }

  lemma TellsMore(results: seq<(string, Outcome)>, present: seq<nat>, s: State, names: seq<string>, n: nat,
                  young: set<string>, kind: string -> Kind, day: int, faults: string -> Faults)
    requires |names| == n + 1 && Tells(results, present, s, names[..n], young, kind, day, faults)
    ensures Tells(results, present, s, names, young, kind, day, faults)
    ensures Tells(results + [ReportOf(s, names[n], young, kind, day, faults)], present + [n], s, names, young, kind,
                  day,
                  faults)
  {
    assert forall k :: 0 <= k < n ==> names[..n][k] == names[k];
  }

  lemma HandlesMore(ops: seq<Op>, handled: seq<nat>, names: seq<string>, n: nat, kind: string -> Kind, day: int,
                    faults: string -> Faults)
    requires |names| == n + 1 && Handles(ops, handled, names[..n], kind, day, faults)
    ensures Handles(ops, handled, names, kind, day, faults)
    ensures Handles(ops + [Process(names[n], kind(names[n]), day, faults(names[n]))], handled + [n], names, kind, day,
                    faults)
  {
    assert forall k :: 0 <= k < n ==> names[..n][k] == names[k];
  }

  lemma RunSnoc(s: State, ops: seq<Op>, op: Op)
    ensures RunFrom(s, ops + [op]) == Apply(RunFrom(s, ops), op)
  {
    assert (ops + [op])[..|ops|] == ops;
  }

  lemma ListInit(names: seq<string>, n: nat)
    requires |names| == n + 1 && NamesDiffer(names)
    ensures NamesDiffer(names[..n]) && names[n] !in names[..n]
  {}

  /**
   A pass, exactly: it is the run that handles each listed file that is there and not young, once and
   in the order of the listing; and it reports of each file there, in that order, that it is young or
   what handling it came to.
   */
  lemma {:induction false} ScanIsRun(s: State, names: seq<string>, young: set<string>, kind: string -> Kind, day: int,
                                     faults: string -> Faults)
    returns (ops: seq<Op>, handled: seq<nat>, present: seq<nat>)
    requires NamesDiffer(names)
    ensures Scan(s, names, young, kind, day, faults).0 == RunFrom(s, ops)
    ensures Handles(ops, handled, names, kind, day, faults) && InOrder(handled, Settling(s, names, young))
    ensures Tells(Scan(s, names, young, kind, day, faults).1, present, s, names, young, kind, day, faults)
    ensures InOrder(present, Present(s, names))
  {
    if names == [] {
      ops, handled, present := [], [], [];
    } else {
      var n := |names| - 1;
      var name := names[n];
      ListInit(names, n);
      PresentMore(s, names, n, young);
      ops, handled, present := ScanIsRun(s, names[..n], young, kind, day, faults);
      var before := Scan(s, names[..n], young, kind, day, faults).0;
      ScanOther(s, names[..n], young, kind, day, faults, name);
      OutcomeSame(s, before, name, kind(name), day, faults(name));
      TellsMore(Scan(s, names[..n], young, kind, day, faults).1, present, s, names, n, young, kind, day, faults);
      HandlesMore(ops, handled, names, n, kind, day, faults);
      if Path(Incoming, name) in s.files {
        InOrderMore(present, Present(s, names[..n]), n);
        present := present + [n];
        if name !in young {
          var op := Process(name, kind(name), day, faults(name));
          RunSnoc(s, ops, op);
          InOrderMore(handled, Settling(s, names[..n], young), n);
          ops, handled := ops + [op], handled + [n];
        }
      }
    }
  }

  // ─── A pass in which nothing throws ────────────────────────────────────────────────

  lemma HandleLeaves(s: State, name: string, kind: Kind, day: int)
    requires Path(Incoming, name) in s.files
    ensures var key := Key(name, s.files[Path(Incoming, name)]);
            var s' := Handle(s, name, kind, day, NO_FAULTS);
            && Path(Incoming, name) !in s'.files && key in s'.ledger
            && (key !in s.ledger ==>
                  s'.ledger[key].status == match kind case NoGateway => UnknownGateway case Good => Done case _ =>
                    Broken)
            && (key in s'.ingested <==> key in s.ingested || (key !in s.ledger && kind in {Rejected, Good}))
  {
    var key := Key(name, s.files[Path(Incoming, name)]);
    if key in s.ledger {
      DestinationFree(s.files, Processed(day), name);
    } else {
      HandleNew(s, name, kind, day);
      DestinationFree(s.files, Failed, name);
      DestinationFree(s.files, Unknown, name);
      DestinationFree(s.files, Processed(day), name);
      var status := match kind case NoGateway => UnknownGateway case Good => Done case _ => Broken;
      assert DirOf(status, day) != Incoming;
    }
  }

  /**
   What a fault-free pass makes of one settled file: gone from incoming, in the ledger, and ingested
   if it is new and can be.
   */
  ghost predicate Cleared(s: State, t: State, name: string, kind: Kind) {
    var src := Path(Incoming, name);
    src in s.files ==>
      var key := Key(name, s.files[src]);
      && src !in t.files && key in t.ledger
      && (key !in s.ledger ==>
            t.ledger[key].status == match kind case NoGateway => UnknownGateway case Good => Done case _ => Broken)
      && (key in t.ingested <==> key in s.ingested || (key !in s.ledger && kind in {Rejected, Good}))
  }

  lemma ClearedStays(s: State, t: State, u: State, name: string, kind: Kind)
    requires Cleared(s, t, name, kind) && SameFor(t, u, name)
    ensures Cleared(s, u, name, kind)
  {
    var src := Path(Incoming, name);
    if src in s.files {
      assert SameEntry(t, u, Key(name, s.files[src]));
    }
  }

  lemma ClearedNow(s: State, t: State, name: string, kind: Kind, day: int)
    requires SameFor(s, t, name)
    ensures Cleared(s, Handle(t, name, kind, day, NO_FAULTS), name, kind)
  {
    var src := Path(Incoming, name);
    if src in s.files {
      assert SameEntry(s, t, Key(name, s.files[src]));
      HandleLeaves(t, name, kind, day);
    }
  }

  /**
   End to end: after a pass in which nothing throws no settled listed file is left in incoming; each is
   in the ledger, a new one with the status its kind demands; and it is ingested by now exactly if it
   was before, or is new, of a known gateway and convertible. Young files are where they were.
   */
  lemma {:induction false} PassClears(s: State, names: seq<string>, young: set<string>, kind: string -> Kind, day: int,
                                      faults: string -> Faults, i: nat)
    requires NamesDiffer(names) && i < |names| && forall name :: faults(name) == NO_FAULTS
    ensures var after := Scan(s, names, young, kind, day, faults).0;
            if names[i] in young then SameFor(s, after, names[i]) else Cleared(s, after, names[i], kind(names[i]))
  {
    var n := |names| - 1;
    var name := names[n];
    ListInit(names, n);
    var before := Scan(s, names[..n], young, kind, day, faults).0;
    var handled := Handle(before, name, kind(name), day, NO_FAULTS);
    if i < n {
      PassClears(s, names[..n], young, kind, day, faults, i);
      HandleOther(before, name, kind(name), day, NO_FAULTS, names[i]);
      if names[i] in young {
        SameForThrough(s, before, handled, names[i]);
      } else {
        ClearedStays(s, before, handled, names[i], kind(names[i]));
      }
    } else {
      ScanOther(s, names[..n], young, kind, day, faults, name);
      ClearedNow(s, before, name, kind(name), day);
    }
  }
}
