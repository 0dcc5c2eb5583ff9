/** `ClassifyRisk` (internal/testgate/risk.go): the risk of a set of changed files. */
module Risk {
  import opened Prelude

  datatype Level = Low | Standard | High | Critical

  function Rank(l: Level): nat {
    match l
    case Low => 1
    case Standard => 2
    case High => 3
    case Critical => 4
  }

  function Higher(a: Level, b: Level): (h: Level)
    ensures Rank(h) >= Rank(a) && Rank(h) >= Rank(b) && (h == a || h == b)
  {
    if Rank(b) > Rank(a) then b else a
  }

  // ----- paths

  predicate HasPrefix(s: string, p: string) {
    p <= s
  }

  predicate HasSuffix(s: string, p: string) {
    |p| <= |s| && s[|s| - |p|..] == p
  }

  predicate Contains(s: string, p: string) {
    p <= s || (s != "" && Contains(s[1..], p))
  }

  /** Unicode white space. */
  predicate IsSpace(c: char) {
    || c == ' ' || '\t' <= c <= '\r' || c == '\U{85}' || c == '\U{A0}' || c == '\U{1680}'
    || '\U{2000}' <= c <= '\U{200A}' || c == '\U{2028}' || c == '\U{2029}' || c == '\U{202F}' || c == '\U{205F}'
    || c == '\U{3000}'
  }

  function TrimLeft(s: string): string {
    if s != "" && IsSpace(s[0]) then TrimLeft(s[1..]) else s
  }

  function TrimRight(s: string): string {
    if s != "" && IsSpace(s[|s| - 1]) then TrimRight(s[..|s| - 1]) else s
  }

  /** Surrounding white space and one leading "./" removed. */
  function Normal(path: string): string {
    var t := TrimRight(TrimLeft(path));
    if HasPrefix(t, "./") then t[2..] else t
  }

  predicate IsAttackerLoop(p: string) {
    || HasPrefix(p, "internal/canaryattacker/planner/")
    || HasPrefix(p, "internal/canaryattacker/ollama/")
    || HasPrefix(p, "cmd/attackerloopspike/")
  }

  predicate IsAttackerScenario(p: string) {
    || HasPrefix(p, "internal/canaryattacker/scenarios/")
    || HasPrefix(p, "cmd/attackerscenariospike/")
    || HasPrefix(p, "scripts/dgx/attackerscenariospike")
  }

  predicate IsAttackerExecutor(p: string) {
    HasPrefix(p, "internal/canaryattacker/executor/") || HasPrefix(p, "cmd/attackerexecutorspike/")
  }

  predicate IsGate(p: string) {
    || p == "Makefile" || HasPrefix(p, ".github/workflows/")
    || HasPrefix(p, "internal/testgate/") || HasPrefix(p, "cmd/testgate/")
    || HasPrefix(p, "test/gates/") || HasPrefix(p, ".agents/skills/canarysting-dev/")
  }

  predicate IsFrontend(p: string) {
    || HasPrefix(p, "dashboard/app/") || HasPrefix(p, "test/fixtures/tracebackend/")
    || HasPrefix(p, "internal/dashboard/backend/") || HasPrefix(p, "internal/canaryview/tracefixture/")
    || HasPrefix(p, "internal/canaryview/trace/")
  }

  predicate IsBoundary(p: string) {
    || HasPrefix(p, "bpf/") || HasPrefix(p, "scripts/dgx/") || HasPrefix(p, "cmd/tracespike/")
    || HasPrefix(p, "internal/sting/containment/") || HasPrefix(p, "bpf/sockops/")
    || HasPrefix(p, "internal/llm/attacker/") || HasPrefix(p, "cmd/llm-attacker/")
  }

  predicate IsShared(p: string) {
    || HasPrefix(p, "internal/contract/") || HasPrefix(p, "internal/identity/") || HasPrefix(p, "internal/engine/")
    || HasPrefix(p, "internal/sting/") || HasPrefix(p, "adapters/") || HasPrefix(p, "internal/operator/")
    || HasPrefix(p, "deploy/") || HasPrefix(p, "config/") || HasPrefix(p, "api/proto/")
  }

  predicate IsProse(p: string) {
    || HasPrefix(p, "docs/") || p == "AGENTS.md" || p == ".gitignore" || HasSuffix(p, ".md")
    || HasPrefix(p, "presentations/") || HasPrefix(p, "slides/")
  }

  predicate IsOrdinary(p: string) {
    || HasPrefix(p, "dashboard/app/") || HasSuffix(p, ".go") || p == "go.mod" || p == "go.sum" || HasPrefix(p, "scripts/")
  }

  /** `classifyPath` looks at the normalised path. */
  function LevelOf(path: string): Level {
    var p := Normal(path);
    if p == "" then High
    else if IsAttackerLoop(p) || IsAttackerScenario(p) || IsAttackerExecutor(p) then Critical
    else if HasPrefix(p, "internal/canaryattacker/") then High
    else if IsBoundary(p) then Critical
    else if IsGate(p) || IsShared(p) then High
    else if IsProse(p) then Low
    else if IsOrdinary(p) then Standard
    else High
  }

  /** Only prose is not executable, and only prose is LOW. */
  predicate Executable(path: string) {
    LevelOf(path) != Low
  }

  datatype Flag = Runs | NeedsPrivilege | NeedsLiveQwen | TouchesEbpf | TouchesFrontend | TouchesGate

  /** The remote profiles, "dgx-" and the name; the last is the fallback for a critical change
      without a concrete one. */
  datatype Profile =
    | AttackerLoop | AttackerScenarios | AttackerExecutor | AttackerCheck | AttackerSmoke
    | Trace | KernelProof | EnforcementProof | Kubernetes | Harness | ManualCritical

  /** What a path demands of a remote run. */
  datatype Impact = Impact(profiles: set<Profile>, flags: set<Flag>)

  const NO_IMPACT := Impact({}, {})

  /** This switch looks at the path as given, not at its normal form. */
  function ImpactOf(p: string): Impact {
    if IsAttackerLoop(p) then Impact({AttackerLoop}, {NeedsLiveQwen})
    else if IsAttackerScenario(p) then Impact({AttackerScenarios}, {})
    else if IsAttackerExecutor(p) then Impact({AttackerExecutor}, {})
    else if HasPrefix(p, "cmd/tracespike/") then Impact({Trace}, {})
    else if HasPrefix(p, "bpf/") then Impact({KernelProof}, {NeedsPrivilege, TouchesEbpf})
    else if HasPrefix(p, "internal/sting/containment/") then Impact({EnforcementProof}, {NeedsPrivilege})
    else if HasPrefix(p, "scripts/dgx/") then HarnessImpact(p)
    else if HasPrefix(p, "internal/identity/") || HasPrefix(p, "internal/operator/")
         || HasPrefix(p, "deploy/") || HasPrefix(p, "config/") then Impact({Kubernetes}, {})
    else if HasPrefix(p, "internal/llm/attacker/") || HasPrefix(p, "cmd/llm-attacker/") then
      Impact({AttackerSmoke}, {NeedsLiveQwen})
    else NO_IMPACT
  }

  function HarnessImpact(p: string): (i: Impact)
    ensures i.profiles != {} && ManualCritical !in i.profiles && i.flags <= {NeedsLiveQwen}
  {
    if Contains(p, "attackerloopspike") then Impact({AttackerLoop}, {NeedsLiveQwen})
    else if Contains(p, "attackerscenariospike") then Impact({AttackerScenarios}, {})
    else if Contains(p, "attackerexecutorspike") then Impact({AttackerExecutor}, {})
    else if Contains(p, "tracespike") then Impact({Trace}, {})
    else if Contains(p, "attackercheck") then Impact({AttackerCheck}, {})
    else if HasSuffix(p, "/cleanup.sh") || HasSuffix(p, "/pr.sh") || HasSuffix(p, "/pr-batch.sh")
         || HasSuffix(p, "/ssh-control.sh") then
      Impact({KernelProof, AttackerLoop, AttackerScenarios}, {NeedsLiveQwen})
    else if Contains(p, "cookiespike") || Contains(p, "enforcespike") || HasSuffix(p, "/preflight-proof.sh") then
      Impact({KernelProof}, {})
    else Impact({Harness}, {})
  }

  // ----- the report

  /** The parsed manual override. */
  datatype Manual = Absent | Invalid | Override(level: Level)

  /** What became of the override. */
  datatype Disposition = NoOverride | Increased | Matched | Ignored

  datatype Report = Report(
    automatic: Level, effective: Level, disposition: Disposition,
    flags: set<Flag>, profiles: set<Profile>, requiresDGX: bool)

  /** Everything the classification reads off one path. */
  datatype Finding = Finding(level: Level, profiles: set<Profile>, flags: set<Flag>)

  function FindingOf(path: string): Finding {
    var impact := ImpactOf(path);
    Finding(LevelOf(path), impact.profiles, AllFlagsOf(impact.flags, Executable(path), IsFrontend(path), IsGate(path)))
  }

  function AllFlagsOf(remote: set<Flag>, executable: bool, frontend: bool, gate: bool): set<Flag> {
    remote
    + (if executable then {Runs} else {})
    + (if frontend then {TouchesFrontend} else {})
    + (if gate then {TouchesGate} else {})
  }

  lemma FlagsHold(remote: set<Flag>, executable: bool, frontend: bool, gate: bool)
    requires remote <= {NeedsPrivilege, NeedsLiveQwen, TouchesEbpf}
    ensures var flags := AllFlagsOf(remote, executable, frontend, gate);
      && (Runs in flags <==> executable) && (TouchesFrontend in flags <==> frontend) && (TouchesGate in flags <==> gate)
      && remote <= flags
  {
  }

  function Findings(files: seq<string>): (found: seq<Finding>)
    ensures |found| == |files| && forall i :: 0 <= i < |files| ==> found[i] == FindingOf(files[i])
  {
    Mapped(FindingOf, files)
  }

  ghost predicate IsMax(l: Level, found: set<Finding>) {
    && (forall x :: x in found ==> Rank(x.level) <= Rank(l))
    && (l == Low || exists x :: x in found && x.level == l)
  }

  ghost function AllProfiles(found: set<Finding>): set<Profile> {
    set x, p | x in found && p in x.profiles :: p
  }

  ghost function AllFlags(found: set<Finding>): set<Flag> {
    set x, f | x in found && f in x.flags :: f
  }

  function Raise(l: Level, manual: Manual): Level {
    if manual.Override? then Higher(l, manual.level) else l
  }

  function DispositionOf(l: Level, manual: Manual): Disposition {
    if !manual.Override? then NoOverride
    else if Higher(l, manual.level) != l then Increased
    else if manual.level == l then Matched
    else Ignored
  }

  /** What the findings add up to before the override: no reference to any order. */
  ghost predicate SumsUp(r: Report, found: set<Finding>) {
    IsMax(r.automatic, found) && r.flags == AllFlags(found)
  }

  ghost predicate Describes(r: Report, found: set<Finding>, manual: Manual) {
    && SumsUp(r, found)
    && r.effective == Raise(r.automatic, manual) && r.disposition == DispositionOf(r.automatic, manual)
    && r.profiles == (if r.effective == Critical && AllProfiles(found) == {} then {ManualCritical} else AllProfiles(found))
    && (r.requiresDGX <==> r.profiles != {})
  }

  ghost function SetOf(found: seq<Finding>): set<Finding> {
    set x | x in found
  }

  /** The loop over the changed files, then the override and the fallback profile. */
  method SummarizeRisk(found: seq<Finding>, manual: Manual) returns (report: Option<Report>)
    ensures report.None? <==> manual.Invalid?
    ensures report.Some? ==> Describes(report.value, SetOf(found), manual)
  {
    var r := Report(Low, Low, NoOverride, {}, {}, false);
    for i := 0 to |found|
      invariant SumsUp(r, SetOf(found[..i])) && r.profiles == AllProfiles(SetOf(found[..i]))
      invariant r.disposition == NoOverride
    {
      var x := found[i];
      ghost var before := r;
      if Rank(x.level) > Rank(r.automatic) {
        r := r.(automatic := x.level);
      }
      r := r.(flags := r.flags + x.flags);
      r := r.(profiles := r.profiles + x.profiles);
      TakeSnoc(found, i);
    }
    TakeAll(found);
    r := r.(effective := r.automatic);
    if manual.Invalid? {
      return None;
    }
    if manual.Override? {
      if Rank(manual.level) > Rank(r.automatic) {
        r := r.(effective := manual.level, disposition := Increased);
      } else if Rank(manual.level) == Rank(r.automatic) {
        r := r.(disposition := Matched);
      } else {
        r := r.(disposition := Ignored);
      }
    }
    if r.effective == Critical && r.profiles == {} {
      r := r.(profiles := {ManualCritical});
    }
    return Some(r.(requiresDGX := r.profiles != {}));
  }

  /** Refuses an invalid override; otherwise the report describes the findings of the changed files. */
  method ClassifyRisk(files: seq<string>, manual: Manual) returns (report: Option<Report>)
    ensures report.None? <==> manual.Invalid?
    ensures report.Some? ==> ReportOf(report.value, files, manual)
  {
    report := SummarizeRisk(Findings(files), manual);
  }

  // ----- what the classification promises

  ghost predicate Includes(more: seq<string>, files: seq<string>) {
    forall f :: f in files ==> f in more
  }

  lemma MoreFindings(files: seq<string>, more: seq<string>)
    requires Includes(more, files)
    ensures SetOf(Findings(files)) <= SetOf(Findings(more))
  {
    forall x | x in Findings(files) ensures x in Findings(more) {
      var i :| 0 <= i < |files| && Findings(files)[i] == x;
      assert files[i] in more;
      var j :| 0 <= j < |more| && more[j] == files[i];
      assert Findings(more)[j] == x;
    }
  }

  /** Order independence: the same changed files, in any order and with repetitions, give the same report. */
  lemma OrderIndependent(r: Report, s: Report, files: seq<string>, others: seq<string>, manual: Manual)
    requires Includes(files, others) && Includes(others, files)
    ensures ReportOf(r, files, manual) && ReportOf(s, others, manual) ==> r == s
  {
    MoreFindings(files, others);
    MoreFindings(others, files);
    if ReportOf(r, files, manual) && ReportOf(s, others, manual) {
      SameSum(r, s, SetOf(Findings(files)), manual);
    }
  }

  /** The report `ClassifyRisk` gives for these files. */
  ghost predicate ReportOf(r: Report, files: seq<string>, manual: Manual) {
    Describes(r, SetOf(Findings(files)), manual)
  }

  lemma SameSum(r: Report, s: Report, found: set<Finding>, manual: Manual)
    requires Describes(r, found, manual) && Describes(s, found, manual)
    ensures r == s
  {
  }

  /** The four levels by severity. */
  predicate AtLeast(l: Level, m: Level) {
    match m
    case Low => true
    case Standard => l != Low
    case High => l == High || l == Critical
    case Critical => l == Critical
  }

  lemma RankIsSeverity(l: Level, m: Level)
    ensures AtLeast(l, m) <==> Rank(l) >= Rank(m)
  {
  }

  /** What a report says, file by file: its level is at least that of every file and of the override, and
      one of them or LOW; it carries every flag and every profile of every file and no flag besides; and a
      remote run is needed exactly when some file has a profile or the effective level is critical. */
  lemma ReportCovers(r: Report, files: seq<string>, manual: Manual)
    ensures ReportOf(r, files, manual) ==> CoversFiles(r, files) && AppliesOverride(r, manual)
  {
    if ReportOf(r, files, manual) {
      FindingsAreOfFiles(files);
      SaysOfFindings(r, SetOf(Findings(files)), manual);
      forall f | f in files
        ensures AtLeast(r.automatic, LevelOf(f)) && FindingOf(f).flags <= r.flags && ImpactOf(f).profiles <= r.profiles
      {
        RankIsSeverity(r.automatic, LevelOf(f));
        CoversFinding(r, SetOf(Findings(files)), manual, FindingOf(f));
      }
      OverrideIsApplied(r, SetOf(Findings(files)), manual);
    }
  }

  lemma OverrideIsApplied(r: Report, found: set<Finding>, manual: Manual)
    requires Describes(r, found, manual)
    ensures AppliesOverride(r, manual)
  {
    RankIsSeverity(r.effective, r.automatic);
    if manual.Override? {
      RankIsSeverity(r.effective, manual.level);
      RankIsSeverity(manual.level, r.automatic);
    }
  }

  ghost predicate CoversFiles(r: Report, files: seq<string>) {
    && (forall f :: f in files ==>
          AtLeast(r.automatic, LevelOf(f)) && FindingOf(f).flags <= r.flags && ImpactOf(f).profiles <= r.profiles)
    && (r.automatic == Low || exists f :: f in files && LevelOf(f) == r.automatic)
    && (forall x :: x in r.flags ==> exists f :: f in files && x in FindingOf(f).flags)
    && (r.requiresDGX <==> r.effective == Critical || exists f :: f in files && ImpactOf(f).profiles != {})
  }

  ghost predicate AppliesOverride(r: Report, manual: Manual) {
    match manual
    case Override(level) =>
      && AtLeast(r.effective, r.automatic) && AtLeast(r.effective, level) && (r.effective == r.automatic || r.effective == level)
      && (r.disposition == Matched <==> level == r.automatic)
      && (r.disposition == Ignored <==> !AtLeast(level, r.automatic))
      && r.disposition != NoOverride
    case _ => r.effective == r.automatic && r.disposition == NoOverride
  }

  lemma FoundIn(files: seq<string>, f: string)
    requires f in files
    ensures FindingOf(f) in SetOf(Findings(files))
  {
    var i :| 0 <= i < |files| && files[i] == f;
    assert Findings(files)[i] == FindingOf(f);
  }

  lemma CoversFinding(r: Report, found: set<Finding>, manual: Manual, x: Finding)
    requires Describes(r, found, manual) && x in found
    ensures Rank(x.level) <= Rank(r.automatic) && x.flags <= r.flags && x.profiles <= r.profiles
    ensures x.profiles != {} ==> r.requiresDGX
  {
    assert forall p :: p in x.profiles ==> p in AllProfiles(found);
    assert forall y :: y in x.flags ==> y in AllFlags(found);
  }

  lemma SaysOfFindings(r: Report, found: set<Finding>, manual: Manual)
    requires Describes(r, found, manual)
    ensures r.automatic == Low || exists x :: x in found && x.level == r.automatic
    ensures forall y :: y in r.flags ==> exists x :: x in found && y in x.flags
    ensures r.requiresDGX <==> r.effective == Critical || exists x :: x in found && x.profiles != {}
  {
    NoProfileIff(found);
  }

  lemma FindingsAreOfFiles(files: seq<string>)
    ensures forall x :: x in SetOf(Findings(files)) <==> exists f :: f in files && x == FindingOf(f)
  {
    forall x ensures x in SetOf(Findings(files)) <==> exists f :: f in files && x == FindingOf(f) {
      if x in SetOf(Findings(files)) {
        var i :| 0 <= i < |files| && Findings(files)[i] == x;
        assert files[i] in files && x == FindingOf(files[i]);
      }
      if f :| f in files && x == FindingOf(f) {
        FoundIn(files, f);
      }
    }
  }

  /** A lower or equal override. */
  ghost predicate AtMost(m: Manual, n: Manual) {
    m.Override? ==> n.Override? && Rank(m.level) <= Rank(n.level)
  }

  /** Monotonicity: more changed files or a higher override never lower the effective risk, never
      clear a flag and never drop the need for a remote run. */
  lemma Monotone(r: Report, s: Report, files: seq<string>, more: seq<string>, m: Manual, n: Manual)
    requires Includes(more, files) && AtMost(m, n)
    ensures ReportOf(r, files, m) && ReportOf(s, more, n) ==>
      Rank(r.effective) <= Rank(s.effective) && r.flags <= s.flags && (r.requiresDGX ==> s.requiresDGX)
  {
    MoreFindings(files, more);
    if ReportOf(r, files, m) && ReportOf(s, more, n) {
      SumsMonotone(r, s, SetOf(Findings(files)), SetOf(Findings(more)), m, n);
    }
  }

  lemma SumsMonotone(r: Report, s: Report, found: set<Finding>, more: set<Finding>, m: Manual, n: Manual)
    requires Describes(r, found, m) && Describes(s, more, n) && found <= more && AtMost(m, n)
    ensures Rank(r.effective) <= Rank(s.effective) && r.flags <= s.flags && (r.requiresDGX ==> s.requiresDGX)
  {
    assert AllProfiles(found) <= AllProfiles(more);
  }

  lemma PrefixOfPrefix(p: string, q: string, r: string)
    requires HasPrefix(q, p) && HasPrefix(r, q)
    ensures HasPrefix(r, p)
  {
  }

  /** A path that normalisation leaves unchanged at its front. */
  predicate Plain(p: string) {
    p != "" && !IsSpace(p[0]) && !HasPrefix(p, "./")
  }

  lemma {:induction false} TrimRightIsPrefix(s: string)
    ensures TrimRight(s) <= s
  {
    if s != "" && IsSpace(s[|s| - 1]) {
      TrimRightIsPrefix(s[..|s| - 1]);
    }
  }

  lemma PlainNormal(p: string)
    requires Plain(p)
    ensures Normal(p) <= p
  {
    TrimRightIsPrefix(p);
    if HasPrefix(TrimRight(p), "./") {
      PrefixOfPrefix("./", TrimRight(p), p);
      assert false;
    }
  }

  predicate IsCritical(p: string) {
    IsAttackerLoop(p) || IsAttackerScenario(p) || IsAttackerExecutor(p) || IsBoundary(p)
  }

  lemma StillPrefix(s: string, q: string, p: string)
    requires q <= p
    ensures HasPrefix(q, s) ==> HasPrefix(p, s)
  {
  }

  lemma LongerStaysCritical(q: string, p: string)
    requires q <= p && IsCritical(q)
    ensures IsCritical(p)
  {
    StillPrefix("internal/canaryattacker/planner/", q, p);
    StillPrefix("internal/canaryattacker/ollama/", q, p);
    StillPrefix("cmd/attackerloopspike/", q, p);
    StillPrefix("internal/canaryattacker/scenarios/", q, p);
    StillPrefix("cmd/attackerscenariospike/", q, p);
    StillPrefix("scripts/dgx/attackerscenariospike", q, p);
    StillPrefix("internal/canaryattacker/executor/", q, p);
    StillPrefix("cmd/attackerexecutorspike/", q, p);
    StillPrefix("bpf/", q, p);
    StillPrefix("scripts/dgx/", q, p);
    StillPrefix("cmd/tracespike/", q, p);
    StillPrefix("internal/sting/containment/", q, p);
    StillPrefix("bpf/sockops/", q, p);
    StillPrefix("internal/llm/attacker/", q, p);
    StillPrefix("cmd/llm-attacker/", q, p);
  }

  /** The switch for profiles covers every critical path. */
  lemma CriticalHasProfile(p: string)
    requires IsCritical(p)
    ensures ImpactOf(p).profiles != {}
  {
    if HasPrefix(p, "bpf/sockops/") {
      PrefixOfPrefix("bpf/", "bpf/sockops/", p);
    }
  }

  lemma FirstDiffers(p: string, q: string)
    requires p != "" && q != "" && p[0] != q[0]
    ensures !HasPrefix(p, q)
  {
  }

  lemma FrontIsNoAttackerPath(p: string)
    requires p != "" && (p[0] == '.' || IsSpace(p[0]))
    ensures !IsAttackerLoop(p) && !IsAttackerScenario(p) && !IsAttackerExecutor(p)
  {
    FirstDiffers(p, "internal/canaryattacker/planner/");
    FirstDiffers(p, "internal/canaryattacker/ollama/");
    FirstDiffers(p, "cmd/attackerloopspike/");
    FirstDiffers(p, "internal/canaryattacker/scenarios/");
    FirstDiffers(p, "cmd/attackerscenariospike/");
    FirstDiffers(p, "scripts/dgx/attackerscenariospike");
    FirstDiffers(p, "internal/canaryattacker/executor/");
    FirstDiffers(p, "cmd/attackerexecutorspike/");
  }

  lemma FrontHasNoImpact(p: string)
    requires p != "" && (p[0] == '.' || IsSpace(p[0]))
    ensures ImpactOf(p) == NO_IMPACT
  {
    FrontIsNoAttackerPath(p);
    FirstDiffers(p, "cmd/tracespike/");
    FirstDiffers(p, "bpf/");
    FirstDiffers(p, "internal/sting/containment/");
    FirstDiffers(p, "scripts/dgx/");
    FirstDiffers(p, "internal/identity/");
    FirstDiffers(p, "internal/operator/");
    FirstDiffers(p, "deploy/");
    FirstDiffers(p, "config/");
    FirstDiffers(p, "internal/llm/attacker/");
    FirstDiffers(p, "cmd/llm-attacker/");
  }

  /** The level is read off the normal form and the profile off the path as given: a critical path
      has a profile of its own exactly when nothing is stripped from its front. */
  lemma ProfileIffPlain(p: string)
    ensures LevelOf(p) == Critical ==> (ImpactOf(p).profiles != {} <==> Plain(p))
  {
    if LevelOf(p) == Critical {
      if Plain(p) {
        PlainNormal(p);
        LongerStaysCritical(Normal(p), p);
        CriticalHasProfile(p);
      } else {
        FrontHasNoImpact(p);
      }
    }
  }

  /** No path has the fallback as its own profile. */
  lemma ProfilesAreConcrete(p: string)
    ensures ManualCritical !in ImpactOf(p).profiles
  {
  }

  /** Without an override the manual-critical fallback is used exactly when some path is critical and
      no path has a profile of its own. */
  lemma FallbackIff(r: Report, files: seq<string>)
    ensures ReportOf(r, files, Absent) ==> (ManualCritical in r.profiles <==>
      (exists f :: f in files && LevelOf(f) == Critical) && forall f :: f in files ==> ImpactOf(f).profiles == {})
  {
    if ReportOf(r, files, Absent) {
      var found := SetOf(Findings(files));
      NotAmongFindings(files);
      FilesAndFindings(files);
      CriticalIff(r, found);
      NoProfileIff(found);
    }
  }

  lemma NoProfileIff(found: set<Finding>)
    ensures AllProfiles(found) == {} <==> forall x :: x in found ==> x.profiles == {}
  {
    if AllProfiles(found) == {} {
      forall x | x in found ensures x.profiles == {} {
        assert forall p :: p in x.profiles ==> p in AllProfiles(found);
      }
    }
  }

  lemma NotAmongFindings(files: seq<string>)
    ensures ManualCritical !in AllProfiles(SetOf(Findings(files)))
  {
    forall i | 0 <= i < |files| ensures ManualCritical !in Findings(files)[i].profiles {
      ProfilesAreConcrete(files[i]);
    }
  }

  lemma FilesAndFindings(files: seq<string>)
    ensures (exists f :: f in files && LevelOf(f) == Critical) <==> exists x :: x in SetOf(Findings(files)) && x.level == Critical
    ensures (forall f :: f in files ==> ImpactOf(f).profiles == {}) <==> forall x :: x in SetOf(Findings(files)) ==> x.profiles == {}
  {
    var found := Findings(files);
    forall f | f in files ensures FindingOf(f) in SetOf(found) {
      var i :| 0 <= i < |files| && files[i] == f;
      assert found[i] == FindingOf(f);
    }
    forall x | x in SetOf(found) ensures exists f :: f in files && x == FindingOf(f) {
      var i :| 0 <= i < |found| && found[i] == x;
      assert files[i] in files;
    }
  }

  lemma CriticalIff(r: Report, found: set<Finding>)
    requires Describes(r, found, Absent)
    ensures r.effective == Critical <==> exists x :: x in found && x.level == Critical
  {
  }

  predicate CriticalsArePlain(files: seq<string>) {
    forall f :: f in files && LevelOf(f) == Critical ==> Plain(f)
  }

  /** So it is never needed when the critical paths have no "./" or white space in front. */
  lemma PlainPathsNeverFallBack(r: Report, files: seq<string>)
    ensures ReportOf(r, files, Absent) && r.automatic == Critical && CriticalsArePlain(files)
        ==> r.profiles == AllProfiles(SetOf(Findings(files))) != {}
  {
    if ReportOf(r, files, Absent) && r.automatic == Critical && CriticalsArePlain(files) {
      var x :| x in SetOf(Findings(files)) && x.level == Critical;
      var i :| 0 <= i < |files| && FindingOf(files[i]) == x;
      ProfileIffPlain(files[i]);
    }
  }

  /** Normalised paths are such paths. */
  lemma NormalIsPlain(p: string)
    ensures Normal(p) == p && p != "" ==> Plain(p)
  {
    if p != "" && !Plain(p) {
      NormalShrinks(p);
    }
  }

  lemma NormalShrinks(p: string)
    requires p != "" && !Plain(p)
    ensures |Normal(p)| < |p|
  {
    TrimRightIsPrefix(TrimLeft(p));
    if IsSpace(p[0]) {
      TrimLeftShrinks(p[1..]);
    }
  }

  lemma {:induction false} TrimLeftShrinks(s: string)
    ensures |TrimLeft(s)| <= |s|
  {
    if s != "" && IsSpace(s[0]) {
      TrimLeftShrinks(s[1..]);
    }
  }

  lemma BpfIsCritical(p: string)
    requires HasPrefix(Normal(p), "bpf/")
    ensures LevelOf(p) == Critical
  {
    FirstDiffers(Normal(p), "internal/canaryattacker/");
  }

  /** A leading "./" costs this critical path its profile. */
  lemma DotSlashLosesProfile()
    ensures LevelOf("./bpf/a.c") == Critical && ImpactOf("./bpf/a.c").profiles == {}
  {
    var p := "./bpf/a.c";
    assert TrimLeft(p) == p && TrimRight(p) == p;
    assert p[2..][..4] == "bpf/";
    BpfIsCritical(p);
    ProfileIffPlain(p);
  }

  // ----- which change gets which level and which remote run

  /** `p` lies under `a`, which differs from `b` at position `i`, so it does not lie under `b`. */
  lemma Elsewhere(p: string, a: string, b: string, i: nat)
    requires HasPrefix(p, a) && i < |a| && i < |b| && a[i] != b[i]
    ensures !HasPrefix(p, b)
  {
    assert p[i] == a[i];
  }

  predicate OnCriticalPath(p: string) {
    || HasPrefix(p, "internal/canaryattacker/planner/") || HasPrefix(p, "internal/canaryattacker/ollama/")
    || HasPrefix(p, "internal/canaryattacker/scenarios/") || HasPrefix(p, "internal/canaryattacker/executor/")
    || HasPrefix(p, "cmd/attackerloopspike/") || HasPrefix(p, "cmd/attackerscenariospike/")
    || HasPrefix(p, "cmd/attackerexecutorspike/") || HasPrefix(p, "cmd/tracespike/") || HasPrefix(p, "cmd/llm-attacker/")
    || HasPrefix(p, "bpf/") || HasPrefix(p, "scripts/dgx/")
    || HasPrefix(p, "internal/sting/containment/") || HasPrefix(p, "internal/llm/attacker/")
  }

  predicate OnSharedPath(p: string) {
    || HasPrefix(p, "internal/canaryattacker/") || HasPrefix(p, "internal/contract/") || HasPrefix(p, "internal/identity/")
    || HasPrefix(p, "internal/engine/") || HasPrefix(p, "internal/sting/") || HasPrefix(p, "internal/operator/")
    || HasPrefix(p, "adapters/") || HasPrefix(p, "deploy/") || HasPrefix(p, "config/") || HasPrefix(p, "api/proto/")
    || HasPrefix(p, "internal/testgate/") || HasPrefix(p, "cmd/testgate/") || HasPrefix(p, "test/gates/")
    || HasPrefix(p, ".github/workflows/") || HasPrefix(p, ".agents/skills/canarysting-dev/") || p == "Makefile"
  }

  predicate OnProsePath(p: string) {
    || HasPrefix(p, "docs/") || HasPrefix(p, "presentations/") || HasPrefix(p, "slides/")
    || p == "AGENTS.md" || p == ".gitignore" || HasSuffix(p, ".md")
  }

  predicate OnCodePath(p: string) {
    HasPrefix(p, "dashboard/app/") || HasPrefix(p, "scripts/") || HasSuffix(p, ".go") || p == "go.mod" || p == "go.sum"
  }

  lemma CriticalIffOnPath(p: string)
    ensures IsCritical(p) <==> OnCriticalPath(p)
  {
    if HasPrefix(p, "bpf/sockops/") {
      PrefixOfPrefix("bpf/", "bpf/sockops/", p);
    }
    if HasPrefix(p, "scripts/dgx/attackerscenariospike") {
      PrefixOfPrefix("scripts/dgx/", "scripts/dgx/attackerscenariospike", p);
    }
  }

  /** A boundary path is not an attacker path. */
  lemma BoundaryIsElsewhere(p: string)
    requires IsBoundary(p)
    ensures !HasPrefix(p, "internal/canaryattacker/")
  {
    var b := "internal/canaryattacker/";
    if HasPrefix(p, "bpf/") { Elsewhere(p, "bpf/", b, 0); }
    if HasPrefix(p, "bpf/sockops/") { Elsewhere(p, "bpf/sockops/", b, 0); }
    if HasPrefix(p, "scripts/dgx/") { Elsewhere(p, "scripts/dgx/", b, 0); }
    if HasPrefix(p, "cmd/tracespike/") { Elsewhere(p, "cmd/tracespike/", b, 0); }
    if HasPrefix(p, "cmd/llm-attacker/") { Elsewhere(p, "cmd/llm-attacker/", b, 0); }
    if HasPrefix(p, "internal/sting/containment/") { Elsewhere(p, "internal/sting/containment/", b, 9); }
    if HasPrefix(p, "internal/llm/attacker/") { Elsewhere(p, "internal/llm/attacker/", b, 9); }
  }

  /** The level of a path, each level by the paths it covers: critical ones first, then shared surfaces,
      then prose, then ordinary code; the empty path and everything unmapped is HIGH. */
  lemma LevelByPath(path: string)
    ensures var p, l := Normal(path), LevelOf(path);
      && (l == Critical <==> p != "" && OnCriticalPath(p))
      && (l == Low <==> p != "" && !OnCriticalPath(p) && !OnSharedPath(p) && OnProsePath(p))
      && (l == Standard <==> p != "" && !OnCriticalPath(p) && !OnSharedPath(p) && !OnProsePath(p) && OnCodePath(p))
  {
    var p := Normal(path);
    CriticalIffOnPath(p);
    if IsBoundary(p) {
      BoundaryIsElsewhere(p);
    }
  }

  /** Changes to the kernel programs need privilege and the kernel proof; to containment, privilege and the
      enforcement proof; to the attacker's tools, a live model. */
  lemma ImpactByPath(p: string)
    ensures HasPrefix(p, "bpf/") ==> ImpactOf(p) == Impact({KernelProof}, {NeedsPrivilege, TouchesEbpf})
    ensures HasPrefix(p, "internal/sting/containment/") ==> ImpactOf(p) == Impact({EnforcementProof}, {NeedsPrivilege})
    ensures HasPrefix(p, "internal/llm/attacker/") ==> ImpactOf(p) == Impact({AttackerSmoke}, {NeedsLiveQwen})
  {
    if HasPrefix(p, "bpf/") { NotYet(p, "bpf/", 0); }
    if HasPrefix(p, "internal/sting/containment/") {
      NotYet(p, "internal/sting/containment/", 9);
      Elsewhere(p, "internal/sting/containment/", "bpf/", 0);
    }
    if HasPrefix(p, "internal/llm/attacker/") {
      var a := "internal/llm/attacker/";
      NotYet(p, a, 9);
      Elsewhere(p, a, "bpf/", 0);
      Elsewhere(p, a, "internal/sting/containment/", 9);
      Elsewhere(p, a, "scripts/dgx/", 0);
      Elsewhere(p, a, "internal/identity/", 9);
      Elsewhere(p, a, "internal/operator/", 9);
      Elsewhere(p, a, "deploy/", 0);
      Elsewhere(p, a, "config/", 0);
    }
  }

  /** Identity, operator and deployment changes need the cluster proof. */
  lemma ClusterImpactByPath(p: string)
    ensures HasPrefix(p, "internal/identity/") ==> ImpactOf(p) == Impact({Kubernetes}, {})
    ensures HasPrefix(p, "internal/operator/") ==> ImpactOf(p) == Impact({Kubernetes}, {})
    ensures HasPrefix(p, "deploy/") ==> ImpactOf(p) == Impact({Kubernetes}, {})
  {
    if HasPrefix(p, "internal/identity/") { ClusterIsElsewhere(p, "internal/identity/", 9); }
    if HasPrefix(p, "internal/operator/") { ClusterIsElsewhere(p, "internal/operator/", 9); }
    if HasPrefix(p, "deploy/") { ClusterIsElsewhere(p, "deploy/", 0); }
  }

  lemma ConfigImpactByPath(p: string)
    requires HasPrefix(p, "config/")
    ensures ImpactOf(p) == Impact({Kubernetes}, {})
  {
    var a := "config/";
    Elsewhere(p, a, "internal/canaryattacker/planner/", 0);
    Elsewhere(p, a, "internal/canaryattacker/ollama/", 0);
    Elsewhere(p, a, "internal/canaryattacker/scenarios/", 0);
    Elsewhere(p, a, "internal/canaryattacker/executor/", 0);
    Elsewhere(p, a, "cmd/attackerloopspike/", 1);
    Elsewhere(p, a, "cmd/attackerscenariospike/", 1);
    Elsewhere(p, a, "cmd/attackerexecutorspike/", 1);
    Elsewhere(p, a, "cmd/tracespike/", 1);
    Elsewhere(p, a, "scripts/dgx/attackerscenariospike", 0);
    Elsewhere(p, a, "bpf/", 0);
    Elsewhere(p, a, "internal/sting/containment/", 0);
    Elsewhere(p, a, "scripts/dgx/", 0);
  }

  lemma ClusterIsElsewhere(p: string, a: string, i: nat)
    requires HasPrefix(p, a) && i < |a| && (i == 0 || i == 9)
    requires i == 0 ==> a[0] != 'i' && a[0] != 'c' && a[0] != 's' && a[0] != 'b'
    requires i == 9 ==> a[0] == 'i' && a[9] != 'c' && a[9] != 's'
    ensures !IsAttackerLoop(p) && !IsAttackerScenario(p) && !IsAttackerExecutor(p)
    ensures !HasPrefix(p, "cmd/tracespike/") && !HasPrefix(p, "bpf/")
    ensures !HasPrefix(p, "internal/sting/containment/") && !HasPrefix(p, "scripts/dgx/")
  {
    NotYet(p, a, i);
    Elsewhere(p, a, "bpf/", 0);
    Elsewhere(p, a, "internal/sting/containment/", i);
    Elsewhere(p, a, "scripts/dgx/", 0);
  }

  ghost predicate OccursAt(s: string, p: string, i: int) {
    0 <= i <= |s| - |p| && s[i..][..|p|] == p
  }

  lemma {:induction false} ContainsIff(s: string, p: string)
    ensures Contains(s, p) <==> exists i :: OccursAt(s, p, i)
  {
    if p <= s {
      assert OccursAt(s, p, 0);
    } else if s != "" {
      ContainsIff(s[1..], p);
      if i :| OccursAt(s[1..], p, i) {
        assert s[1..][i..] == s[i + 1..];
        assert OccursAt(s, p, i + 1);
      }
      if i :| OccursAt(s, p, i) {
        assert s[0..] == s;
        assert i > 0;
        assert s[1..][i - 1..] == s[i..];
        assert OccursAt(s[1..], p, i - 1);
      }
    }
  }

  /** A file of the remote harness is proved by what its name says, shared scripts by several, and anything
      else by the harness proof itself. */
  lemma HarnessByName(p: string)
    requires HasPrefix(p, "scripts/dgx/") && !HasPrefix(p, "scripts/dgx/attackerscenariospike")
    ensures Contains(p, "attackerloopspike") ==> ImpactOf(p) == Impact({AttackerLoop}, {NeedsLiveQwen})
    ensures !Contains(p, "attackerloopspike") && Contains(p, "attackerscenariospike") ==> ImpactOf(p) == Impact({AttackerScenarios}, {})
    ensures !NamesAttacker(p) && Contains(p, "tracespike") ==> ImpactOf(p) == Impact({Trace}, {})
    ensures !NamesAttacker(p) && !Contains(p, "tracespike") && Contains(p, "attackercheck") ==> ImpactOf(p) == Impact({AttackerCheck}, {})
    ensures !NamesProof(p) && SharedScript(p) ==> ImpactOf(p) == Impact({KernelProof, AttackerLoop, AttackerScenarios}, {NeedsLiveQwen})
    ensures !NamesProof(p) && !SharedScript(p) ==>
      ImpactOf(p) == Impact(if NamesKernel(p) then {KernelProof} else {Harness}, {})
  {
    var a := "scripts/dgx/";
    Elsewhere(p, a, "internal/canaryattacker/planner/", 0);
    Elsewhere(p, a, "internal/canaryattacker/ollama/", 0);
    Elsewhere(p, a, "internal/canaryattacker/scenarios/", 0);
    Elsewhere(p, a, "internal/canaryattacker/executor/", 0);
    Elsewhere(p, a, "cmd/attackerloopspike/", 0);
    Elsewhere(p, a, "cmd/attackerscenariospike/", 0);
    Elsewhere(p, a, "cmd/attackerexecutorspike/", 0);
    Elsewhere(p, a, "cmd/tracespike/", 0);
    Elsewhere(p, a, "bpf/", 0);
    Elsewhere(p, a, "internal/sting/containment/", 0);
    assert ImpactOf(p) == HarnessImpact(p);
  }

  predicate NamesAttacker(p: string) {
    Contains(p, "attackerloopspike") || Contains(p, "attackerscenariospike") || Contains(p, "attackerexecutorspike")
  }

  predicate NamesProof(p: string) {
    NamesAttacker(p) || Contains(p, "tracespike") || Contains(p, "attackercheck")
  }

  predicate NamesKernel(p: string) {
    Contains(p, "cookiespike") || Contains(p, "enforcespike") || HasSuffix(p, "/preflight-proof.sh")
  }

  predicate SharedScript(p: string) {
    HasSuffix(p, "/cleanup.sh") || HasSuffix(p, "/pr.sh") || HasSuffix(p, "/pr-batch.sh") || HasSuffix(p, "/ssh-control.sh")
  }

  /** The attacker's loop, scenarios and executor and the trace proof each have their own profile; the loop
      alone needs a live model. */
  lemma AttackerImpactByPath(p: string)
    ensures HasPrefix(p, "internal/canaryattacker/planner/") ==> ImpactOf(p) == Impact({AttackerLoop}, {NeedsLiveQwen})
    ensures HasPrefix(p, "internal/canaryattacker/ollama/") ==> ImpactOf(p) == Impact({AttackerLoop}, {NeedsLiveQwen})
    ensures HasPrefix(p, "cmd/attackerloopspike/") ==> ImpactOf(p) == Impact({AttackerLoop}, {NeedsLiveQwen})
    ensures HasPrefix(p, "internal/canaryattacker/scenarios/") ==> ImpactOf(p) == Impact({AttackerScenarios}, {})
    ensures HasPrefix(p, "internal/canaryattacker/executor/") ==> ImpactOf(p) == Impact({AttackerExecutor}, {})
    ensures HasPrefix(p, "cmd/tracespike/") ==> ImpactOf(p) == Impact({Trace}, {})
  {
    if HasPrefix(p, "internal/canaryattacker/scenarios/") { NotLoop(p, "internal/canaryattacker/scenarios/", 24); }
    if HasPrefix(p, "internal/canaryattacker/executor/") {
      var a := "internal/canaryattacker/executor/";
      NotLoop(p, a, 24);
      Elsewhere(p, a, "internal/canaryattacker/scenarios/", 24);
      Elsewhere(p, a, "cmd/attackerscenariospike/", 0);
      Elsewhere(p, a, "scripts/dgx/attackerscenariospike", 0);
    }
    if HasPrefix(p, "cmd/tracespike/") { TraceIsElsewhere(p); }
  }

  lemma NotLoop(p: string, a: string, i: nat)
    requires HasPrefix(p, a) && i == 24 && i < |a| && a[0] == 'i' && a[i] != 'p' && a[i] != 'o'
    ensures !IsAttackerLoop(p)
  {
    Elsewhere(p, a, "internal/canaryattacker/planner/", i);
    Elsewhere(p, a, "internal/canaryattacker/ollama/", i);
    Elsewhere(p, a, "cmd/attackerloopspike/", 0);
  }

  lemma TraceIsElsewhere(p: string)
    requires HasPrefix(p, "cmd/tracespike/")
    ensures !IsAttackerLoop(p) && !IsAttackerScenario(p) && !IsAttackerExecutor(p)
  {
    var a := "cmd/tracespike/";
    Elsewhere(p, a, "internal/canaryattacker/planner/", 0);
    Elsewhere(p, a, "internal/canaryattacker/ollama/", 0);
    Elsewhere(p, a, "internal/canaryattacker/scenarios/", 0);
    Elsewhere(p, a, "internal/canaryattacker/executor/", 0);
    Elsewhere(p, a, "cmd/attackerloopspike/", 4);
    Elsewhere(p, a, "cmd/attackerscenariospike/", 4);
    Elsewhere(p, a, "cmd/attackerexecutorspike/", 4);
    Elsewhere(p, a, "scripts/dgx/attackerscenariospike", 0);
  }

  predicate OnGatePath(p: string) {
    || HasPrefix(p, "internal/testgate/") || HasPrefix(p, "cmd/testgate/") || HasPrefix(p, "test/gates/")
    || HasPrefix(p, ".github/workflows/") || HasPrefix(p, ".agents/skills/canarysting-dev/") || p == "Makefile"
  }

  lemma ImpactFlagsAreRemote(p: string)
    ensures ImpactOf(p).flags <= {NeedsPrivilege, NeedsLiveQwen, TouchesEbpf}
  {
  }

  /** Everything but prose is executable, gate paths are flagged as such, and no other flag is lost. */
  lemma FlagsByPath(p: string)
    ensures var flags := FindingOf(p).flags;
      && (Runs in flags <==> LevelOf(p) != Low) && (TouchesGate in flags <==> OnGatePath(p))
      && (TouchesFrontend in flags <==> IsFrontend(p)) && ImpactOf(p).flags <= flags
  {
    ImpactFlagsAreRemote(p);
    FlagsHold(ImpactOf(p).flags, Executable(p), IsFrontend(p), IsGate(p));
  }

  /** None of the attacker and trace paths. */
  lemma NotYet(p: string, a: string, i: nat)
    requires HasPrefix(p, a) && i < |a| && i <= 9
    requires i == 0 ==> a[0] != 'i' && a[0] != 'c' && a[0] != 's'
    requires i == 9 ==> |a| > 9 && a[0] == 'i' && a[9] != 'c'
    requires i == 0 || i == 9
    ensures !IsAttackerLoop(p) && !IsAttackerScenario(p) && !IsAttackerExecutor(p) && !HasPrefix(p, "cmd/tracespike/")
  {
    Elsewhere(p, a, "internal/canaryattacker/planner/", i);
    Elsewhere(p, a, "internal/canaryattacker/ollama/", i);
    Elsewhere(p, a, "internal/canaryattacker/scenarios/", i);
    Elsewhere(p, a, "internal/canaryattacker/executor/", i);
    Elsewhere(p, a, "cmd/attackerloopspike/", 0);
    Elsewhere(p, a, "cmd/attackerscenariospike/", 0);
    Elsewhere(p, a, "cmd/attackerexecutorspike/", 0);
    Elsewhere(p, a, "cmd/tracespike/", 0);
    Elsewhere(p, a, "scripts/dgx/attackerscenariospike", 0);
  }
}
