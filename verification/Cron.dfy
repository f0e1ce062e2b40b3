/** The cron controller: one job list kept in a state file and rendered into a cron file, changed only by a client
    that names the revision it read. */
module Cron {
  import opened Text

  datatype Job = Job(id: string, schedule: string, user: string, command: string, description: string, enabled: bool)

  const MAX_JOBS := 256
  const MAX_STATE_BYTES := 0x10_0000

  // ---- validation ---------------------------------------------------------

  function CharBytes(c: char): nat {
    var n := c as int;
    if n < 0x80 then 1 else if n < 0x800 then 2 else if n < 0x1_0000 then 3 else 4
  }

  /** Length in bytes, as Go's `len` counts it. */
  function Bytes(s: string): nat {
    if s == "" then 0 else CharBytes(s[0]) + Bytes(s[1..])
  }

  predicate OneLine(s: string) { '\n' !in s && '\r' !in s && '\0' !in s }

  predicate JobId(id: string) {
    |id| == 17 && id[..5] == "cron-" && forall i :: 5 <= i < 17 ==> IsHex(id[i])
  }

  predicate UserStart(c: char) { 'a' <= c <= 'z' || c == '_' }

  predicate UserName(s: string) {
    1 <= |s| <= 32 && UserStart(s[0]) && forall i :: 1 <= i < |s| ==> UserStart(s[i]) || IsDigit(s[i]) || s[i] == '-'
  }

  /** `validateCronJob` apart from the identifier; the account database is a parameter. */
  predicate ValidBody(job: Job, users: set<string>) {
    && UserName(job.user) && job.user in users
    && 0 < Bytes(job.command) <= 4096 && OneLine(job.command)
    && Bytes(job.description) <= 160 && OneLine(job.description)
    && Bytes(job.schedule) <= 160 && OneLine(job.schedule) && |Fields(job.schedule)| == 5
  }

  predicate Valid(job: Job, users: set<string>) { JobId(job.id) && ValidBody(job, users) }

  // ---- rendering ----------------------------------------------------------

  function Unlines(lines: seq<string>): string {
    if lines == [] then "" else lines[0] + "\n" + Unlines(lines[1..])
  }

  const NOTICE := " Managed by Heyserver." + " Changes outside " + "Heyserver will be " + "replaced."
  const SEARCH_PATH := "/usr/local/sbin:" + "/usr/local/bin:" + "/usr/sbin:/usr/bin:" + "/sbin:/bin"

  function JobLine(job: Job): string { job.schedule + " " + job.user + " " + job.command }

  function JobLines(job: Job): seq<string> {
    ["", "# HSERVER " + job.id + (if job.description != "" then " - " + job.description else ""),
     if job.enabled then JobLine(job) else "# DISABLED " + JobLine(job)]
  }

  function BodyLines(jobs: seq<Job>): seq<string> {
    if jobs == [] then [] else JobLines(jobs[0]) + BodyLines(jobs[1..])
  }

  function FileLines(jobs: seq<Job>, shell: string): seq<string> {
    HeadLines(shell) + BodyLines(jobs)
  }

  /** The cron file of a job list. */
  function Render(jobs: seq<Job>, shell: string): string { Unlines(FileLines(jobs, shell)) }

  lemma {:induction false} UnlinesAppend(a: seq<string>, b: seq<string>)
    ensures Unlines(a + b) == Unlines(a) + Unlines(b)
  {
    if a == [] {
      assert a + b == b;
    } else {
      UnlinesAppend(a[1..], b);
      assert (a + b)[1..] == a[1..] + b;
      var x, y, z := a[0] + "\n", Unlines(a[1..]), Unlines(b);
      assert x + (y + z) == (x + y) + z;
    }
  }

  lemma {:induction false} BodyLinesAppend(jobs: seq<Job>, job: Job)
    ensures BodyLines(jobs + [job]) == BodyLines(jobs) + JobLines(job)
  {
    if jobs == [] {
      assert jobs + [job] == [job];
      assert [job][1..] == [];
    } else {
      BodyLinesAppend(jobs[1..], job);
      assert (jobs + [job])[1..] == jobs[1..] + [job];
    }
  }

  function HeadLines(shell: string): seq<string> { ["#" + NOTICE, "SHELL=" + shell, "PATH=" + SEARCH_PATH] }

  /** `renderCronJobs`: the builder, piece by piece. */
  method RenderJobs(jobs: seq<Job>, shell: string) returns (output: string)
    ensures output == Render(jobs, shell)
  {
    hide BodyLines, Unlines, HeadLines, JobLines;
    ghost var head := HeadLines(shell);
    output := RenderHead(shell);
    NoLines();
    assert jobs[..0] == [] && head + [] == head;
    for n := 0 to |jobs|
      invariant output == Unlines(head + BodyLines(jobs[..n]))
    {
      var piece := RenderJob(jobs[n]);
      output := output + piece;
      BodyLinesAppend(jobs[..n], jobs[n]);
      UnlinesAppend(head + BodyLines(jobs[..n]), JobLines(jobs[n]));
      assert jobs[..n + 1] == jobs[..n] + [jobs[n]];
      assert head + BodyLines(jobs[..n + 1]) == head + BodyLines(jobs[..n]) + JobLines(jobs[n]);
    }
    assert jobs[..|jobs|] == jobs;
  }

  method RenderHead(shell: string) returns (output: string)
    ensures output == Unlines(HeadLines(shell))
  {
    hide Unlines;
    var header, path := "#" + NOTICE, "PATH=" + SEARCH_PATH;
    UnlinesThree(header, "SHELL=" + shell, path);
    output := header + "\n";
    output := output + ("SHELL=" + shell + "\n");
    output := output + (path + "\n");
  }

  method RenderJob(job: Job) returns (output: string)
    ensures output == Unlines(JobLines(job))
  {
    hide JobLine, Unlines;
    JobText(job);
    output := "\n# HSERVER " + job.id;
    if job.description != "" {
      output := output + (" - " + job.description);
    }
    output := output + "\n";
    var line := JobLine(job);
    if !job.enabled {
      line := "# DISABLED " + line;
    }
    output := output + line + "\n";
  }

  lemma NoLines()
    ensures BodyLines([]) == []
  {}

  lemma UnlinesThree(a: string, b: string, c: string)
    ensures Unlines([a, b, c]) == a + "\n" + b + "\n" + c + "\n"
  {
    var last, two := [c], [b, c];
    assert last[1..] == [] && two[1..] == last && [a, b, c][1..] == two;
    assert Unlines(last) == c + "\n" + "" == c + "\n";
    assert Unlines(two) == b + "\n" + (c + "\n");
  }

  lemma JobText(job: Job)
    ensures Unlines(JobLines(job)) ==
      "\n# HSERVER " + job.id + (if job.description != "" then " - " + job.description else "") + "\n" +
      (if job.enabled then JobLine(job) else "# DISABLED " + JobLine(job)) + "\n"
  {
    hide JobLine, Unlines;
    var lines := JobLines(job);
    UnlinesThree(lines[0], lines[1], lines[2]);
    assert lines == [lines[0], lines[1], lines[2]];
    assert "" + "\n" + lines[1] == "\n# HSERVER " + job.id +
        (if job.description != "" then " - " + job.description else "");
  }

  // ---- counting entries ---------------------------------------------------

  /** A line that cron would take for an entry, as `sources` decides it. */
  predicate IsEntry(raw: string) {
    var line := TrimSpace(raw);
    var fields := Fields(line);
    line != "" && line[0] != '#' && fields != [] && '=' !in fields[0]
  }

  function Entries(lines: seq<string>): seq<string> {
    if lines == [] then [] else (if IsEntry(lines[0]) then [lines[0]] else []) + Entries(lines[1..])
  }

  /** The counting loop of `sources`. */
  method CountEntries(content: string) returns (count: nat)
    ensures count == |Entries(SplitOn(content, '\n'))|
  {
    hide IsEntry, SplitOn;
    var lines := SplitOn(content, '\n');
    count := 0;
    for n := 0 to |lines|
      invariant |Entries(lines)| == count + |Entries(lines[n..])|
    {
      assert lines[n..][1..] == lines[n + 1..];
      if IsEntry(lines[n]) {
        count := count + 1;
      }
    }
  }

  // ---- the size of the state file -----------------------------------------

  /** Bytes of one character inside a JSON string, as Go escapes it. */
  function JsonCharBytes(c: char): (n: nat)
    ensures n >= 1
  {
    var n := c as int;
    if c == '"' || c == '\\' || n == 8 || n == 9 || n == 10 || n == 12 || n == 13 then 2
    else if n < 0x20 || c == '<' || c == '>' || c == '&' || n == 0x2028 || n == 0x2029 then 6
    else CharBytes(c)
  }

  function JsonTextBytes(s: string): nat {
    if s == "" then 0 else JsonCharBytes(s[0]) + JsonTextBytes(s[1..])
  }

  /** A line `    "key": value,` with its newline. */
  function JsonFieldBytes(key: string, value: nat): nat { 4 + |key| + 2 + 2 + value + 2 }

  function JobBytes(job: Job): nat {
    4 + JsonFieldBytes("id", 2 + JsonTextBytes(job.id)) + JsonFieldBytes("schedule", 2 + JsonTextBytes(job.schedule))
    + JsonFieldBytes("user", 2 + JsonTextBytes(job.user)) + JsonFieldBytes("command", 2 + JsonTextBytes(job.command))
    + (if job.description != "" then JsonFieldBytes("description", 2 + JsonTextBytes(job.description)) else 0)
    + JsonFieldBytes("enabled", if job.enabled then 4 else 5) - 2 + 4
  }

  function JobsBytes(jobs: seq<Job>): nat {
    if jobs == [] then 0 else JobBytes(jobs[0]) + 2 + JobsBytes(jobs[1..])
  }

  /** Size of the indented JSON text of a job list, with its last newline. */
  function StateBytes(jobs: seq<Job>): nat {
    if jobs == [] then 3 else 2 + JobsBytes(jobs) - 2 + 3
  }

  // ---- the two files ------------------------------------------------------

  datatype Files = Files(state: Option<seq<Job>>, cron: Option<string>)

  predicate AllValid(jobs: seq<Job>, users: set<string>) {
    forall i :: 0 <= i < |jobs| ==> Valid(jobs[i], users)
  }

  /** `loadJobs`: an absent file is an empty list; an oversized or invalid one is an error. */
  function Load(files: Files, users: set<string>): Option<seq<Job>> {
    if files.state.None? then Some([])
    else if StateBytes(files.state.value) > MAX_STATE_BYTES || |files.state.value| > MAX_JOBS
            || !AllValid(files.state.value, users) then None
    else files.state
  }

  datatype Edit = Create(job: Job) | Update(job: Job) | Delete(id: string)

  /** Index of the first job with an identifier, or the length. */
  function FirstWith(jobs: seq<Job>, id: string): (k: nat)
    ensures k <= |jobs|
    ensures k < |jobs| ==> jobs[k].id == id
    ensures forall i :: 0 <= i < k ==> jobs[i].id != id
  {
    if jobs == [] || jobs[0].id == id then 0 else 1 + FirstWith(jobs[1..], id)
  }

  /** What an edit makes of a list; `None` when its job is not there. */
  function Edited(e: Edit, jobs: seq<Job>): Option<seq<Job>> {
    match e
    case Create(job) => Some(jobs + [job])
    case Update(job) =>
      var k := FirstWith(jobs, job.id);
      if k == |jobs| then None else Some(jobs[k := job])
    case Delete(id) =>
      var k := FirstWith(jobs, id);
      if k == |jobs| then None else Some(jobs[..k] + jobs[k + 1..])
  }

  /** The text a client sends as the revision it saw; digests are taken to be collision-free. */
  datatype Revision = Malformed | Digest(jobs: seq<Job>)

  datatype Faults = Faults(lock: bool, syntax: bool, prepare: bool, cronWrite: bool, stateWrite: bool, restore: bool)

  datatype Result = Done | Invalid | Changed | NotFound | Unreadable | Unavailable | WriteFailed | RestoreFailed

  predicate Acceptable(e: Edit, users: set<string>) {
    match e
    case Create(job) => Valid(job, users)
    case Update(job) => Valid(job, users)
    case Delete(id) => JobId(id)
  }

  /** What one call leaves behind and reports. */
  function Mutated(files: Files, shell: string, users: set<string>, e: Edit, expected: Revision, f: Faults)
    : (Files, Result)
  {
    if !Acceptable(e, users) then (files, Invalid)
    else if expected.Malformed? then (files, Changed)
    else if f.lock then (files, Unavailable)
    else
      match Load(files, users)
      case None => (files, Unreadable)
      case Some(jobs) =>
        if expected != Digest(jobs) then (files, Changed)
        else
          match Edited(e, jobs)
          case None => (files, NotFound)
          case Some(next) =>
            if |next| > MAX_JOBS || !AllValid(next, users) then (files, Invalid)
            else Saved(files, next, Render(next, shell), f)
  }

  /** `saveJobs`: the cron file first, then the state file; the first is put back when the second fails. */
  function Saved(files: Files, jobs: seq<Job>, text: string, f: Faults): (Files, Result) {
    if f.syntax then (files, Invalid)
    else if f.prepare then (files, Unavailable)
    else if f.cronWrite then (files, WriteFailed)
    else if !f.stateWrite then (Files(Some(jobs), Some(text)), Done)
    else if f.restore then (files.(cron := Some(text)), RestoreFailed)
    else (files, WriteFailed)
  }

  class CronController {
    const shell: string
    const users: set<string>
    var state: Option<seq<Job>>
    var cron: Option<string>

    constructor (shell: string, users: set<string>, files: Files)
      ensures this.shell == shell && this.users == users && View() == files
    {
      this.shell, this.users, state, cron := shell, users, files.state, files.cron;
    }

    function View(): Files
      reads this
    {
      Files(state, cron)
    }

    /** The closures of `Create`, `Update` and `Delete`. */
    method ApplyEdit(e: Edit, jobs: seq<Job>) returns (next: Option<seq<Job>>)
      ensures next == Edited(e, jobs)
    {
      match e {
        case Create(job) => return Some(jobs + [job]);
        case Update(job) =>
          for index := 0 to |jobs|
            invariant forall i :: 0 <= i < index ==> jobs[i].id != job.id
          {
            if jobs[index].id == job.id { return Some(jobs[index := job]); }
          }
          return None;
        case Delete(id) =>
          for index := 0 to |jobs|
            invariant forall i :: 0 <= i < index ==> jobs[i].id != id
          {
            if jobs[index].id == id { return Some(jobs[..index] + jobs[index + 1..]); }
          }
          return None;
      }
    }

    /** `mutate` with `saveJobs`. */
    method Mutate(e: Edit, expected: Revision, f: Faults) returns (result: Result)
      modifies this`state, this`cron
      ensures (View(), result) == Mutated(old(View()), shell, users, e, expected, f)
    {
      hide Valid, JobId, Edited, Render;
      if !Acceptable(e, users) { return Invalid; }
      if expected.Malformed? { return Changed; }
      if f.lock { return Unavailable; }
      var jobs := Load(View(), users);
      if jobs.None? { return Unreadable; }
      if expected != Digest(jobs.value) { return Changed; }
      var next := ApplyEdit(e, jobs.value);
      if next.None? { return NotFound; }
      if |next.value| > MAX_JOBS { return Invalid; }
      for n := 0 to |next.value|
        invariant forall i :: 0 <= i < n ==> Valid(next.value[i], users)
      {
        if !Valid(next.value[n], users) { return Invalid; }
      }
      var text := RenderJobs(next.value, shell);
      if f.syntax { return Invalid; }
      if f.prepare { return Unavailable; }
      var previous := cron;
      if f.cronWrite { return WriteFailed; }
      cron := Some(text);
      if f.stateWrite {
        if f.restore { return RestoreFailed; }
        cron := previous;
        return WriteFailed;
      }
      state := next;
      return Done;
    }
  }
}
