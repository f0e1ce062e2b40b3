/** What a cron file counts as, what every interleaving of clients keeps, and when a committed list can be read. */
module CronProofs {
  import opened Text
  import opened Cron

  // ---- which lines are entries --------------------------------------------

  lemma {:induction false} TrimRightKeeps(word: string, rest: string) returns (kept: string)
    requires Token(word)
    ensures TrimRight(word + rest) == word + kept && kept <= rest
  {
    var s := word + rest;
    if rest != "" && IsSpace(rest[|rest| - 1]) {
      kept := TrimRightKeeps(word, rest[..|rest| - 1]);
      assert s[..|s| - 1] == word + rest[..|rest| - 1];
    } else {
      kept := rest;
      assert rest == "" ==> s == word;
    }
  }

  /** Trimming a line does not touch its first word. */
  lemma TrimFirst(s: string)
    requires Fields(s) != []
    ensures TrimSpace(s) != "" && TrimSpace(s)[0] == Fields(s)[0][0]
    ensures Fields(TrimSpace(s)) != [] && Fields(TrimSpace(s))[0] == Fields(s)[0]
  {
    hide Fields, TrimRight;
    var blank, word, rest := FirstField(s);
    assert s == blank + (word + rest);
    SpacePrefixOf(blank, word + rest);
    assert s[|blank|..] == word + rest;
    var kept := TrimRightKeeps(word, rest);
    FieldsStep("", word, kept);
    assert "" + word + kept == word + kept;
  }

  /** A line is an entry exactly when it has a first word that neither starts a comment nor holds an equals sign. */
  lemma EntryByFirstWord(raw: string)
    requires Fields(raw) != []
    ensures IsEntry(raw) <==> Fields(raw)[0][0] != '#' && '=' !in Fields(raw)[0]
  {
    hide Fields, TrimSpace;
    TrimFirst(raw);
  }

  lemma BlankIsNoEntry()
    ensures !IsEntry("")
  {
    TrimIdle("");
  }

  lemma FirstWordOf(start: string, more: string) returns (word: string)
    requires Token(start)
    ensures Fields(start + more) != [] && Fields(start + more)[0] == word
    ensures start <= word
  {
    hide Fields, SpacePrefix, WordPrefix;
    var n := WordPrefix(more);
    word := start + more[..n];
    var rest := more[n..];
    FieldsStep("", word, rest);
    assert "" + word + rest == start + more;
  }

  lemma CommentIsNoEntry(rest: string)
    ensures !IsEntry("#" + rest)
  {
    hide Fields, IsEntry;
    assert Token("#");
    var word := FirstWordOf("#", rest);
    assert word[0] == "#"[0];
    EntryByFirstWord("#" + rest);
  }

  lemma AssignmentIsNoEntry(key: string, value: string)
    requires Token(key) && '=' in key
    ensures !IsEntry(key + value)
  {
    hide Fields, IsEntry;
    var word := FirstWordOf(key, value);
    assert word[..|key|] == key;
    EntryByFirstWord(key + value);
  }

  /** The entry of a job is seen as one unless its first schedule field hides it. */
  predicate Visible(job: Job)
    requires Fields(job.schedule) != []
  {
    Fields(job.schedule)[0][0] != '#' && '=' !in Fields(job.schedule)[0]
  }

  lemma JobLineEntry(job: Job)
    requires Fields(job.schedule) != []
    ensures IsEntry(JobLine(job)) <==> Visible(job)
  {
    hide Fields, IsEntry;
    var blank, word, rest := FirstField(job.schedule);
    var more := rest + " " + job.user + " " + job.command;
    assert JobLine(job) == blank + word + more;
    FieldsStep(blank, word, more);
    EntryByFirstWord(JobLine(job));
  }

  /** The enabled and visible jobs' lines, in order. */
  function EntryLines(jobs: seq<Job>): seq<string>
    requires forall i :: 0 <= i < |jobs| ==> Fields(jobs[i].schedule) != []
  {
    if jobs == [] then []
    else (if jobs[0].enabled && Visible(jobs[0]) then [JobLine(jobs[0])] else []) + EntryLines(jobs[1..])
  }

  function EnabledCount(jobs: seq<Job>): nat {
    if jobs == [] then 0 else (if jobs[0].enabled then 1 else 0) + EnabledCount(jobs[1..])
  }

  lemma SkipLine(line: string, rest: seq<string>)
    requires !IsEntry(line)
    ensures Entries([line] + rest) == Entries(rest)
  {
    assert ([line] + rest)[1..] == rest;
  }

  lemma TakeLine(line: string, rest: seq<string>)
    requires IsEntry(line)
    ensures Entries([line] + rest) == [line] + Entries(rest)
  {
    assert ([line] + rest)[1..] == rest;
  }

  /** The title and the last line of a job, as comments where they are. */
  lemma JobLinesShape(job: Job)
    ensures !IsEntry(JobLines(job)[0]) && !IsEntry(JobLines(job)[1])
    ensures job.enabled ==> JobLines(job)[2] == JobLine(job)
    ensures !job.enabled ==> !IsEntry(JobLines(job)[2])
  {
    hide IsEntry, JobLine;
    BlankIsNoEntry();
    var title := " HSERVER " + job.id + (if job.description != "" then " - " + job.description else "");
    CommentIsNoEntry(title);
    assert JobLines(job)[1] == "#" + title;
    var off := " DISABLED " + JobLine(job);
    CommentIsNoEntry(off);
    assert "# DISABLED " + JobLine(job) == "#" + off;
  }

  lemma JobLinesEntries(job: Job, rest: seq<string>)
    requires Fields(job.schedule) != []
    ensures Entries(JobLines(job) + rest) == (if job.enabled && Visible(job) then [JobLine(job)] else []) +
        Entries(rest)
  {
    hide Fields, IsEntry, JobLine, Visible, JobLines, Entries;
    ThreeLines(job);
    JobLinesShape(job);
    JobLineEntry(job);
    var a, b, c := JobLines(job)[0], JobLines(job)[1], JobLines(job)[2];
    SkipLine(a, [b] + ([c] + rest));
    SkipLine(b, [c] + rest);
    if job.enabled && Visible(job) {
      TakeLine(c, rest);
    } else {
      SkipLine(c, rest);
    }
    assert JobLines(job) + rest == [a] + ([b] + ([c] + rest));
  }

  lemma {:induction false} BodyEntries(jobs: seq<Job>)
    requires forall i :: 0 <= i < |jobs| ==> Fields(jobs[i].schedule) != []
    ensures Entries(BodyLines(jobs) + [""]) == EntryLines(jobs)
  {
    hide Fields, IsEntry, JobLines, Visible, JobLine;
    if jobs == [] {
      BlankIsNoEntry();
      assert BodyLines(jobs) + [""] == [""];
      assert [""][1..] == [];
    } else {
      JobLinesEntries(jobs[0], BodyLines(jobs[1..]) + [""]);
      BodyEntries(jobs[1..]);
      assert BodyLines(jobs) + [""] == JobLines(jobs[0]) + (BodyLines(jobs[1..]) + [""]);
    }
  }

  lemma HeadEntries(shell: string, rest: seq<string>)
    ensures Entries(HeadLines(shell) + rest) == Entries(rest)
  {
    hide IsEntry, Entries;
    var header, line, path := "#" + NOTICE, "SHELL=" + shell, "PATH=" + SEARCH_PATH;
    CommentIsNoEntry(NOTICE);
    KeyTokens();
    AssignmentIsNoEntry("SHELL=", shell);
    AssignmentIsNoEntry("PATH=", SEARCH_PATH);
    SkipLine(path, rest);
    SkipLine(line, [path] + rest);
    SkipLine(header, [line] + ([path] + rest));
    assert HeadLines(shell) + rest == [header] + ([line] + ([path] + rest));
  }

  lemma KeyTokens()
    ensures Token("SHELL=") && Token("PATH=") && '=' in "SHELL=" && '=' in "PATH="
  {
    assert "SHELL="[5] == '=' && "PATH="[4] == '=';
  }

  lemma {:induction false} SplitUnlines(lines: seq<string>)
    requires forall i :: 0 <= i < |lines| ==> '\n' !in lines[i]
    ensures SplitOn(Unlines(lines), '\n') == lines + [""]
  {
    hide SplitOn;
    if lines == [] {
      SplitWhole("", '\n');
    } else {
      SplitUnlines(lines[1..]);
      SplitFirst(lines[0], Unlines(lines[1..]), '\n');
      assert lines[0] + ['\n'] + Unlines(lines[1..]) == lines[0] + "\n" + Unlines(lines[1..]);
      assert [lines[0]] + (lines[1..] + [""]) == lines + [""];
    }
  }

  lemma JobLinesPlain(job: Job, users: set<string>)
    requires Valid(job, users)
    ensures forall i :: 0 <= i < 3 ==> '\n' !in JobLines(job)[i]
  {
    hide Fields, Bytes;
    assert '\n' !in job.id by { assert job.id == job.id[..5] + job.id[5..]; }
    assert '\n' !in job.user;
    assert '\n' !in JobLine(job);
  }

  lemma {:induction false} BodyPlain(jobs: seq<Job>, users: set<string>)
    requires AllValid(jobs, users)
    ensures forall i :: 0 <= i < |BodyLines(jobs)| ==> '\n' !in BodyLines(jobs)[i]
  {
    hide Valid, JobLines;
    if jobs != [] {
      JobLinesPlain(jobs[0], users);
      BodyPlain(jobs[1..], users);
      assert |JobLines(jobs[0])| == 3 by { ThreeLines(jobs[0]); }
    }
  }

  lemma ThreeLines(job: Job)
    ensures |JobLines(job)| == 3
  {}

  lemma HeadPlain(shell: string)
    requires '\n' !in shell
    ensures forall i :: 0 <= i < 3 ==> '\n' !in HeadLines(shell)[i]
  {
    ConstantsPlain();
    var header, line, path := "#" + NOTICE, "SHELL=" + shell, "PATH=" + SEARCH_PATH;
    assert '\n' !in header && '\n' !in line && '\n' !in path;
  }

  lemma ConstantsPlain()
    ensures '\n' !in NOTICE && '\n' !in SEARCH_PATH
  {
    assert '\n' !in " Managed by Heyserver." && '\n' !in " Changes outside ";
    assert '\n' !in "Heyserver will be " && '\n' !in "replaced.";
    assert '\n' !in "/usr/local/sbin:" && '\n' !in "/usr/local/bin:";
    assert '\n' !in "/usr/sbin:/usr/bin:" && '\n' !in "/sbin:/bin";
  }

  lemma {:induction false} CountOfEntries(jobs: seq<Job>)
    requires forall i :: 0 <= i < |jobs| ==> Fields(jobs[i].schedule) != []
    ensures |EntryLines(jobs)| <= EnabledCount(jobs)
    ensures |EntryLines(jobs)| == EnabledCount(jobs) <==>
            forall i :: 0 <= i < |jobs| && jobs[i].enabled ==> Visible(jobs[i])
  {
    hide Fields, Visible;
    if jobs != [] {
      CountOfEntries(jobs[1..]);
      assert forall i :: 1 <= i < |jobs| ==> jobs[i] == jobs[1..][i - 1];
    }
  }

  /** The entries read back from a rendered file are, in order, the lines of the enabled jobs whose first schedule
      field neither starts with '#' nor holds '='; so the count is right exactly when no enabled job is hidden. */
  lemma RenderedEntries(jobs: seq<Job>, shell: string, users: set<string>)
    requires AllValid(jobs, users) && '\n' !in shell
    ensures forall i :: 0 <= i < |jobs| ==> Fields(jobs[i].schedule) != []
    ensures Entries(SplitOn(Render(jobs, shell), '\n')) == EntryLines(jobs)
    ensures |Entries(SplitOn(Render(jobs, shell), '\n'))| == EnabledCount(jobs) <==>
            forall i :: 0 <= i < |jobs| && jobs[i].enabled ==> Visible(jobs[i])
  {
    hide Fields, SplitOn, Unlines, HeadLines, BodyLines, Entries, Visible, Bytes;
    forall i | 0 <= i < |jobs| ensures Fields(jobs[i].schedule) != [] { assert Valid(jobs[i], users); }
    var lines := FileLines(jobs, shell);
    BodyPlain(jobs, users);
    HeadPlain(shell);
    assert |HeadLines(shell)| == 3 by { HeadLength(shell); }
    SplitUnlines(lines);
    HeadEntries(shell, BodyLines(jobs) + [""]);
    assert lines + [""] == HeadLines(shell) + (BodyLines(jobs) + [""]);
    BodyEntries(jobs);
    CountOfEntries(jobs);
  }

  lemma HeadLength(shell: string)
    ensures |HeadLines(shell)| == 3
  {}

  // ---- every interleaving of clients --------------------------------------

  function Jobs(files: Files): seq<Job> { if files.state.None? then [] else files.state.value }

  /** The cron file is the rendering of the state file, or neither exists yet. */
  predicate Agree(files: Files, shell: string) {
    if files.state.None? then files.cron.None? else files.cron == Some(Render(files.state.value, shell))
  }

  /** A call commits only on the list its revision names, and then writes both files from it; every other outcome
      leaves both files as they were, except a failed restore, which leaves the new cron file beside the old state. */
  lemma MutateEffect(files: Files, shell: string, users: set<string>, e: Edit, expected: Revision, f: Faults)
    ensures var (after, result) := Mutated(files, shell, users, e, expected, f);
      if result == Done || result == RestoreFailed then
        && expected == Digest(Jobs(files)) && Edited(e, Jobs(files)).Some?
        && var next := Edited(e, Jobs(files)).value;
        && |next| <= MAX_JOBS && AllValid(next, users)
        && after == Files(if result == Done then Some(next) else files.state, Some(Render(next, shell)))
      else after == files
  {
    hide Edited, AllValid, Render, Acceptable, StateBytes;
  }

  datatype System = System(files: Files, seen: map<nat, seq<Job>>)

  datatype Event = Read(client: nat) | Change(client: nat, edit: Edit, f: Faults)

  /** A client sends the revision of the list it last read. */
  function Expected(sys: System, client: nat): Revision {
    if client in sys.seen then Digest(sys.seen[client]) else Malformed
  }

  function Next(sys: System, shell: string, users: set<string>, e: Event): System {
    match e
    case Read(client) =>
      (match Load(sys.files, users)
       case None => sys
       case Some(jobs) => sys.(seen := sys.seen[client := jobs]))
    case Change(client, edit, f) =>
      sys.(files := Mutated(sys.files, shell, users, edit, Expected(sys, client), f).0)
  }

  predicate Commits(sys: System, shell: string, users: set<string>, e: Event) {
    e.Change? && Mutated(sys.files, shell, users, e.edit, Expected(sys, e.client), e.f).1 == Done
  }

  /** The system after a run, and the edits that were reported as done, in order. */
  function Run(sys: System, shell: string, users: set<string>, events: seq<Event>): (System, seq<Edit>)
    decreases |events|
  {
    if events == [] then (sys, [])
    else
      var rest := Run(Next(sys, shell, users, events[0]), shell, users, events[1..]);
      (rest.0, (if Commits(sys, shell, users, events[0]) then [events[0].edit] else []) + rest.1)
  }

  function Replay(jobs: seq<Job>, edits: seq<Edit>): Option<seq<Job>>
    decreases |edits|
  {
    if edits == [] then Some(jobs)
    else
      match Edited(edits[0], jobs)
      case None => None
      case Some(next) => Replay(next, edits[1..])
  }

  /** The event replaces the cron file: it commits, or its state write fails and so does putting the cron file back. */
  predicate Renders(sys: System, shell: string, users: set<string>, e: Event) {
    e.Change? && Mutated(sys.files, shell, users, e.edit, Expected(sys, e.client), e.f).1 in {Done, RestoreFailed}
  }

  /** If the event commits, it makes its edit on the list its client read last; if not, it leaves the list alone, and
      both files unless putting the cron file back failed. */
  predicate EditsWhatWasRead(sys: System, shell: string, users: set<string>, e: Event) {
    var after := Next(sys, shell, users, e);
    && (if Commits(sys, shell, users, e) then
          && e.client in sys.seen && sys.seen[e.client] == Jobs(sys.files)
          && Edited(e.edit, sys.seen[e.client]) == Some(Jobs(after.files))
        else after.files.state == sys.files.state)
    && (!Renders(sys, shell, users, e) ==> after.files == sys.files)
  }

  /** The cron file shows a list, or there is none yet. */
  predicate Shows(files: Files, shell: string, list: Option<seq<Job>>) {
    files.cron == if list.None? then None else Some(Render(list.value, shell))
  }

  /** The list made by the last event that replaced the cron file. */
  function LastMade(sys: System, shell: string, users: set<string>, events: seq<Event>, list: Option<seq<Job>>)
    : Option<seq<Job>>
    decreases |events|
  {
    if events == [] then list
    else
      LastMade(Next(sys, shell, users, events[0]), shell, users, events[1..],
               if Renders(sys, shell, users, events[0]) then Edited(events[0].edit, Jobs(sys.files)) else list)
  }

  lemma ChangeStep(sys: System, shell: string, users: set<string>, e: Event, list: Option<seq<Job>>)
    requires Shows(sys.files, shell, list)
    ensures EditsWhatWasRead(sys, shell, users, e)
    ensures Shows(Next(sys, shell, users, e).files, shell,
                  if Renders(sys, shell, users, e) then Edited(e.edit, Jobs(sys.files)) else list)
  {
    if e.Change? {
      MutateEffect(sys.files, shell, users, e.edit, Expected(sys, e.client), e.f);
      hide Edited, AllValid, Render, Mutated;
    }
  }

  /** The system before the event of an index. */
  function Before(sys: System, shell: string, users: set<string>, events: seq<Event>, n: nat): System
    requires n <= |events|
    decreases n
  {
    if n == 0 then sys else Before(Next(sys, shell, users, events[0]), shell, users, events[1..], n - 1)
  }

  /** For any interleaving of reads and changes with any failures: every event that commits edits the list its client
      read, every other one leaves the list alone, the list at the end is exactly what the committed edits make of the
      first one after another, and the cron file shows the list made by the last event that replaced it. */
  lemma {:induction false} ClientsSerialize(sys: System, shell: string, users: set<string>, events: seq<Event>,
                                            list: Option<seq<Job>>)
    requires Shows(sys.files, shell, list)
    ensures var (after, committed) := Run(sys, shell, users, events);
      && Shows(after.files, shell, LastMade(sys, shell, users, events, list))
      && Replay(Jobs(sys.files), committed) == Some(Jobs(after.files))
      && (committed == [] ==> after.files.state == sys.files.state)
    ensures forall n :: 0 <= n < |events| ==>
      EditsWhatWasRead(Before(sys, shell, users, events, n), shell, users, events[n])
    decreases |events|
  {
    if events != [] {
      ChangeStep(sys, shell, users, events[0], list);
      var e, next := events[0], Next(sys, shell, users, events[0]);
      var made := if Renders(sys, shell, users, e) then Edited(e.edit, Jobs(sys.files)) else list;
      assert Commits(sys, shell, users, e) ==> Edited(e.edit, Jobs(sys.files)) == Some(Jobs(next.files));
      assert !Commits(sys, shell, users, e) ==> next.files.state == sys.files.state;
      hide Next, Shows, Mutated, Edited, EditsWhatWasRead, Renders;
      ClientsSerialize(next, shell, users, events[1..], made);
      var rest := Run(next, shell, users, events[1..]).1;
      if Commits(sys, shell, users, e) {
        assert ([e.edit] + rest)[1..] == rest;
      } else {
        assert [] + rest == rest;
      }
      forall n | 0 <= n < |events|
        ensures EditsWhatWasRead(Before(sys, shell, users, events, n), shell, users, events[n])
      {
        if n > 0 { assert events[n] == events[1..][n - 1]; }
      }
    }
  }

  predicate RestoresSucceed(events: seq<Event>) {
    forall i :: 0 <= i < |events| && events[i].Change? ==> !events[i].f.restore
  }

  lemma NoRestoreFailure(files: Files, shell: string, users: set<string>, e: Edit, expected: Revision, f: Faults)
    requires !f.restore
    ensures Mutated(files, shell, users, e, expected, f).1 != RestoreFailed
  {
    hide Edited, AllValid, Render, Acceptable, StateBytes;
  }

  lemma AgreeStep(sys: System, shell: string, users: set<string>, e: Event)
    requires Agree(sys.files, shell) && (e.Change? ==> !e.f.restore)
    ensures Agree(Next(sys, shell, users, e).files, shell)
  {
    if e.Change? {
      MutateEffect(sys.files, shell, users, e.edit, Expected(sys, e.client), e.f);
      NoRestoreFailure(sys.files, shell, users, e.edit, Expected(sys, e.client), e.f);
      hide Edited, AllValid, Render, Mutated;
    }
  }

  /** While putting back never fails, the cron file is the rendering of the state file after every run. */
  lemma {:induction false} FilesAgree(sys: System, shell: string, users: set<string>, events: seq<Event>)
    requires Agree(sys.files, shell) && RestoresSucceed(events)
    ensures Agree(Run(sys, shell, users, events).0.files, shell)
    decreases |events|
  {
    hide Next, Agree;
    if events != [] {
      AgreeStep(sys, shell, users, events[0]);
      assert RestoresSucceed(events[1..]);
      FilesAgree(Next(sys, shell, users, events[0]), shell, users, events[1..]);
    }
  }

  lemma {:induction false} FirstOfAppended(jobs: seq<Job>, job: Job)
    requires forall i :: 0 <= i < |jobs| ==> jobs[i].id != job.id
    ensures FirstWith(jobs + [job], job.id) == |jobs|
  {
    if jobs == [] {
      assert jobs + [job] == [job];
    } else {
      FirstOfAppended(jobs[1..], job);
      assert (jobs + [job])[1..] == jobs[1..] + [job];
    }
  }

  /** Deleting a job right after it was created with a fresh identifier gives the old list back, and so does
      updating it to itself. */
  lemma {:induction false} CreateThenDelete(jobs: seq<Job>, job: Job)
    requires forall i :: 0 <= i < |jobs| ==> jobs[i].id != job.id
    ensures Replay(jobs, [Create(job), Delete(job.id)]) == Some(jobs)
    ensures Replay(jobs, [Create(job), Update(job)]) == Some(jobs + [job])
  {
    hide FirstWith;
    FirstOfAppended(jobs, job);
    var made := jobs + [job];
    assert made[..|jobs|] + made[|jobs| + 1..] == jobs;
    assert made[|jobs| := job] == made;
    assert [Create(job), Delete(job.id)][1..] == [Delete(job.id)];
    assert [Create(job), Update(job)][1..] == [Update(job)];
    assert Replay(made, [Delete(job.id)]) == Some(jobs) by { assert [Delete(job.id)][1..] == []; }
    assert Replay(made, [Update(job)]) == Some(made) by { assert [Update(job)][1..] == []; }
  }

  // ---- when a committed list can still be read ----------------------------

  /** A change that commits can be read later exactly when the JSON text of the edited list stays within the limit that
      only the reader checks and the account of every job still exists. */
  lemma ReadableAfterCommit(files: Files, shell: string, users: set<string>, e: Edit, expected: Revision, f: Faults,
                            later: set<string>)
    requires Mutated(files, shell, users, e, expected, f).1 == Done
    ensures Edited(e, Jobs(files)).Some?
    ensures var made := Edited(e, Jobs(files)).value;
      Load(Mutated(files, shell, users, e, expected, f).0, later).Some? <==>
        StateBytes(made) <= MAX_STATE_BYTES && forall i :: 0 <= i < |made| ==> made[i].user in later
  {
    MutateEffect(files, shell, users, e, expected, f);
    ValidLater(Edited(e, Jobs(files)).value, users, later);
    hide Edited, AllValid, Render, Acceptable, StateBytes, Mutated;
  }

  lemma ValidLater(jobs: seq<Job>, users: set<string>, later: set<string>)
    requires AllValid(jobs, users)
    ensures AllValid(jobs, later) <==> forall i :: 0 <= i < |jobs| ==> jobs[i].user in later
  {}

  const NO_FAULTS := Faults(false, false, false, false, false, false)

  function Long(n: nat): string { seq(n, _ => 'a') }

  function Digit(n: nat): char
    requires n < 10
  {
    '0' + n as char
  }

  /** A different identifier for every number below a thousand. */
  function BigName(n: nat): string
    requires n < 1000
  {
    "cron-" + "000000000" + [Digit(n / 100), Digit(n / 10 % 10), Digit(n % 10)]
  }

  function BigJob(n: nat): Job
    requires n < 1000
  {
    Job(BigName(n), "* * * * *", "root", Long(4096), "", true)
  }

  function BigJobs(n: nat): seq<Job>
    requires n <= 1000
  {
    seq(n, i requires 0 <= i < n => BigJob(i))
  }

  lemma {:induction false} LongBytes(n: nat)
    ensures Bytes(Long(n)) == n && JsonTextBytes(Long(n)) == n && OneLine(Long(n))
  {
    if n > 0 {
      LongBytes(n - 1);
      assert Long(n)[1..] == Long(n - 1);
    }
  }

  predicate OneByte(c: char) { ' ' <= c <= 'z' && c !in {'"', '\\', '<', '>', '&'} }

  lemma {:induction false} PlainBytes(s: string)
    requires forall i :: 0 <= i < |s| ==> OneByte(s[i])
    ensures JsonTextBytes(s) == |s| && Bytes(s) == |s|
  {
    if s != "" { PlainBytes(s[1..]); }
  }

  lemma FiveStars()
    ensures |Fields("* * * * *")| == 5
  {
    var stars := ["*", "*", "*", "*", "*"];
    assert Tokens(stars);
    assert JoinWith(stars, ' ') == "* * * * *" by {
      assert stars[1..] == ["*", "*", "*", "*"];
      assert stars[1..][1..] == ["*", "*", "*"];
      assert stars[1..][1..][1..] == ["*", "*"];
      assert stars[1..][1..][1..][1..] == ["*"];
      assert JoinWith(["*", "*"], ' ') == "* *";
      assert JoinWith(["*", "*", "*"], ' ') == "* * *";
      assert JoinWith(["*", "*", "*", "*"], ' ') == "* * * *";
    }
    hide Fields, JoinWith;
    FieldsJoin(stars);
  }

  /** Every valid, enabled job with such a first field is one the count misses. */
  lemma HiddenUncounted(job: Job, shell: string, users: set<string>)
    requires Valid(job, users) && job.enabled && !Visible(job) && '\n' !in shell
    ensures Entries(SplitOn(Render([job], shell), '\n')) == [] && EnabledCount([job]) == 1
  {
    hide Visible, Render, SplitOn, Entries;
    assert [job][1..] == [];
    assert EntryLines([job]) == [];
    assert AllValid([job], users);
    hide Valid, EntryLines, Fields;
    RenderedEntries([job], shell, users);
  }

  /** A schedule of five words whose first starts a comment. */
  lemma HashStars()
    ensures Fields("# * * * *") == ["#", "*", "*", "*", "*"]
  {
    var words := ["#", "*", "*", "*", "*"];
    assert Tokens(words);
    assert JoinWith(words, ' ') == "# * * * *" by {
      assert words[1..] == ["*", "*", "*", "*"];
      assert words[1..][1..] == ["*", "*", "*"];
      assert words[1..][1..][1..] == ["*", "*"];
      assert words[1..][1..][1..][1..] == ["*"];
      assert JoinWith(["*", "*"], ' ') == "* *";
      assert JoinWith(["*", "*", "*"], ' ') == "* * *";
      assert JoinWith(["*", "*", "*", "*"], ' ') == "* * * *";
    }
    hide Fields, JoinWith;
    FieldsJoin(words);
  }

  lemma HashText()
    ensures Bytes("# * * * *") == 9 && OneLine("# * * * *")
  {
    hide Bytes;
    var schedule := "# * * * *";
    assert forall i :: 0 <= i < |schedule| ==> OneByte(schedule[i]);
    PlainBytes(schedule);
  }

  lemma HiddenFrom(schedule: string) returns (job: Job)
    requires |Fields(schedule)| == 5 && Fields(schedule)[0] == "#" && Bytes(schedule) == 9 && OneLine(schedule)
    ensures Valid(job, {"root"}) && job.enabled && job.schedule == schedule && !Visible(job)
  {
    job := Job(BigName(0), schedule, "root", Long(1), "", true);
    BigNameShape(0);
    BigFields();
    LongBytes(1);
    NoBytes();
    hide Fields, Bytes, OneLine, UserName, JobId, BigName, Long;
  }

  /** There is such a job: one with the schedule "# * * * *". */
  lemma HiddenExists() returns (job: Job)
    ensures Valid(job, {"root"}) && job.enabled && !Visible(job)
  {
    HashStars();
    HashText();
    hide Fields, Bytes, OneLine, Valid, Visible;
    job := HiddenFrom("# * * * *");
  }

  /** Its rendered file counts no entry although the job is enabled. */
  lemma HiddenJobUncounted(shell: string) returns (job: Job)
    requires '\n' !in shell
    ensures Valid(job, {"root"}) && EnabledCount([job]) == 1
    ensures Entries(SplitOn(Render([job], shell), '\n')) == []
  {
    hide Valid, Visible, Entries, SplitOn, Render, EnabledCount;
    job := HiddenExists();
    HiddenUncounted(job, shell, {"root"});
  }

  lemma BigNameShape(n: nat)
    requires n < 1000
    ensures JobId(BigName(n)) && forall i :: 0 <= i < |BigName(n)| ==> OneByte(BigName(n)[i])
  {
    var zeros := "000000000";
    assert forall i :: 0 <= i < 9 ==> zeros[i] == '0';
    assert BigName(n)[..5] == "cron-";
  }

  lemma BigNamesDiffer(m: nat, n: nat)
    requires m < n < 1000
    ensures BigName(m) != BigName(n)
  {
    var a, b := BigName(m), BigName(n);
    assert a[14] == Digit(m / 100) && a[15] == Digit(m / 10 % 10) && a[16] == Digit(m % 10);
    assert b[14] == Digit(n / 100) && b[15] == Digit(n / 10 % 10) && b[16] == Digit(n % 10);
    assert m / 100 == n / 100 && m / 10 % 10 == n / 10 % 10 ==> m % 10 != n % 10;
  }

  lemma BigText(n: nat)
    requires n < 1000
    ensures JsonTextBytes(BigName(n)) == 17 && JsonTextBytes("* * * * *") == 9 && JsonTextBytes("root") == 4
    ensures Bytes("* * * * *") == 9
  {
    BigNameShape(n);
    hide JsonTextBytes, Bytes, BigName;
    var schedule, user := "* * * * *", "root";
    assert forall i :: 0 <= i < |schedule| ==> OneByte(schedule[i]);
    assert forall i :: 0 <= i < |user| ==> OneByte(user[i]);
    PlainBytes(BigName(n));
    PlainBytes(schedule);
    PlainBytes(user);
  }

  lemma BigSize(n: nat)
    requires n < 1000
    ensures JobBytes(BigJob(n)) == 4222
  {
    hide JsonTextBytes, Long, BigName;
    LongBytes(4096);
    BigText(n);
  }

  lemma BigFields()
    ensures UserName("root") && OneLine("* * * * *") && OneLine("")
  {}

  lemma BigValid(n: nat)
    requires n < 1000
    ensures Valid(BigJob(n), {"root"})
  {
    hide Fields, Bytes, JsonTextBytes, Long, JobId, UserName, OneLine, BigName;
    LongBytes(4096);
    BigText(n);
    BigNameShape(n);
    BigFields();
    FiveStars();
    assert Bytes("") == 0 by { NoBytes(); }
  }

  lemma NoBytes()
    ensures Bytes("") == 0
  {}

  lemma {:induction false} BytesAppend(jobs: seq<Job>, job: Job)
    ensures JobsBytes(jobs + [job]) == JobsBytes(jobs) + JobBytes(job) + 2
  {
    hide JobBytes;
    if jobs == [] {
      assert [] + [job] == [job];
    } else {
      BytesAppend(jobs[1..], job);
      assert (jobs + [job])[1..] == jobs[1..] + [job];
    }
  }

  lemma {:induction false} BigBytes(n: nat)
    requires n <= 1000
    ensures JobsBytes(BigJobs(n)) == 4224 * n
  {
    hide JobBytes, BigJob;
    if n > 0 {
      BigSize(n - 1);
      BigBytes(n - 1);
      assert BigJobs(n) == BigJobs(n - 1) + [BigJob(n - 1)];
      BytesAppend(BigJobs(n - 1), BigJob(n - 1));
    }
  }

  lemma BigAllValid(n: nat)
    requires n <= 1000
    ensures AllValid(BigJobs(n), {"root"})
  {
    hide Valid, BigJob;
    forall i | 0 <= i < n ensures Valid(BigJobs(n)[i], {"root"}) { BigValid(i); }
  }

  lemma BigLoads(n: nat, cron: Option<string>)
    requires n <= 249
    ensures Load(Files(Some(BigJobs(n)), cron), {"root"}) == if n <= 248 then Some(BigJobs(n)) else None
  {
    hide AllValid, JobsBytes, BigJob;
    BigBytes(n);
    BigAllValid(n);
  }

  /** What the files hold after that many creations. */
  function BigFiles(n: nat, shell: string): Files
    requires n <= 1000
  {
    if n == 0 then Files(None, None) else Files(Some(BigJobs(n)), Some(Render(BigJobs(n), shell)))
  }

  /** A client that has just read the list and creates a valid job commits it. */
  lemma ReadThenCreate(sys: System, shell: string, users: set<string>, jobs: seq<Job>, job: Job)
    requires Load(sys.files, users) == Some(jobs) && |jobs| < MAX_JOBS
    requires Valid(job, users) && AllValid(jobs + [job], users)
    ensures var after := Next(Next(sys, shell, users, Read(0)), shell, users, Change(0, Create(job), NO_FAULTS));
      after.files == Files(Some(jobs + [job]), Some(Render(jobs + [job], shell)))
  {
    hide Load, Valid, AllValid, Render;
  }

  lemma BigLoad(n: nat, shell: string)
    requires n <= 248
    ensures Load(BigFiles(n, shell), {"root"}) == Some(BigJobs(n))
  {
    if n == 0 {
      NothingLoads();
      assert BigJobs(0) == [];
    } else {
      BigLoads(n, Some(Render(BigJobs(n), shell)));
    }
    hide Load, Render, BigJobs;
  }

  lemma BigGrows(n: nat)
    requires n <= 248
    ensures BigJobs(n) + [BigJob(n)] == BigJobs(n + 1) && |BigJobs(n)| == n
  {
    hide BigJob;
  }

  lemma NothingLoads()
    ensures Load(Files(None, None), {"root"}) == Some([])
  {}

  /** A client that reads and creates, again and again. */
  function Creations(n: nat): seq<Event>
    requires n <= 1000
  {
    if n == 0 then [] else Creations(n - 1) + Creation(n - 1)
  }

  lemma {:induction false} RunJoined(sys: System, shell: string, users: set<string>, a: seq<Event>, b: seq<Event>)
    ensures Run(sys, shell, users, a + b).0 == Run(Run(sys, shell, users, a).0, shell, users, b).0
    decreases |a|
  {
    hide Next, Commits;
    if a == [] {
      assert a + b == b;
    } else {
      assert (a + b)[1..] == a[1..] + b;
      RunJoined(Next(sys, shell, users, a[0]), shell, users, a[1..], b);
    }
  }

  lemma TwoEvents(sys: System, shell: string, users: set<string>, first: Event, second: Event)
    ensures Run(sys, shell, users, [first, second]).0 ==
            Next(Next(sys, shell, users, first), shell, users, second)
  {
    hide Next, Commits;
    assert [first, second][1..] == [second] && [second][1..] == [];
    assert Run(Next(Next(sys, shell, users, first), shell, users, second), shell, users, []).0 ==
           Next(Next(sys, shell, users, first), shell, users, second);
  }

  function Creation(n: nat): seq<Event>
    requires n < 1000
  {
    [Read(0), Change(0, Create(BigJob(n)), NO_FAULTS)]
  }

  lemma CreationStep(sys: System, n: nat, shell: string)
    requires n <= 248 && sys.files == BigFiles(n, shell)
    ensures Run(sys, shell, {"root"}, Creation(n)).0.files == BigFiles(n + 1, shell)
  {
    BigLoad(n, shell);
    BigGrows(n);
    BigValid(n);
    BigAllValid(n + 1);
    assert BigFiles(n + 1, shell) == Files(Some(BigJobs(n + 1)), Some(Render(BigJobs(n + 1), shell)));
    hide BigJob, BigJobs, Load, Valid, AllValid, Next, Run, Render, BigFiles;
    ReadThenCreate(sys, shell, {"root"}, BigJobs(n), BigJob(n));
    TwoEvents(sys, shell, {"root"}, Read(0), Change(0, Create(BigJob(n)), NO_FAULTS));
  }

  /** From empty files the creations are all committed, one after another. */
  lemma {:induction false} CreationsReach(n: nat, shell: string)
    requires n <= 249
    ensures Run(System(Files(None, None), map[]), shell, {"root"}, Creations(n)).0.files == BigFiles(n, shell)
  {
    var start := System(Files(None, None), map[]);
    if n == 0 {
      assert Run(start, shell, {"root"}, []).0 == start;
    } else {
      assert Creations(n) == Creations(n - 1) + Creation(n - 1);
      hide Creations, Creation, Run, BigFiles;
      CreationsReach(n - 1, shell);
      var sys := Run(start, shell, {"root"}, Creations(n - 1)).0;
      CreationStep(sys, n - 1, shell);
      RunJoined(start, shell, {"root"}, Creations(n - 1), Creation(n - 1));
    }
  }

  lemma UnreadableStays(files: Files, shell: string, users: set<string>, e: Edit, expected: Revision, f: Faults)
    requires Load(files, users).None?
    ensures Mutated(files, shell, users, e, expected, f).0 == files &&
        Mutated(files, shell, users, e, expected, f).1 != Done
  {
    hide Load, Edited, AllValid, Render, Acceptable;
  }

  /** Files that cannot be read stay as they are through every further run. */
  lemma {:induction false} UnreadableForever(sys: System, shell: string, users: set<string>, events: seq<Event>)
    requires Load(sys.files, users).None?
    ensures Run(sys, shell, users, events).0.files == sys.files && Run(sys, shell, users, events).1 == []
    decreases |events|
  {
    if events != [] {
      if events[0].Change? {
        UnreadableStays(sys.files, shell, users, events[0].edit, Expected(sys, events[0].client), events[0].f);
      }
      hide Mutated, Load;
      UnreadableForever(Next(sys, shell, users, events[0]), shell, users, events[1..]);
    }
  }

  lemma BigIdsDiffer(n: nat)
    requires n <= 1000
    ensures forall i, j :: 0 <= i < j < n ==> BigJobs(n)[i].id != BigJobs(n)[j].id
  {
    forall i, j | 0 <= i < j < n ensures BigJobs(n)[i].id != BigJobs(n)[j].id {
      BigNamesDiffer(i, j);
      hide BigName;
    }
  }

  /** The limit is reached by valid calls. From empty files, 249 ordinary jobs with different identifiers are created
      and committed one after another; from then on no run of any clients changes the list again, not even by
      a deletion. */
  lemma CommitCanLockOut(shell: string, events: seq<Event>)
    ensures forall i, j :: 0 <= i < j < 249 ==> BigJobs(249)[i].id != BigJobs(249)[j].id
    ensures var locked := Run(System(Files(None, None), map[]), shell, {"root"}, Creations(249)).0;
      && locked.files == Files(Some(BigJobs(249)), Some(Render(BigJobs(249), shell)))
      && Run(locked, shell, {"root"}, events).0.files == locked.files
      && Run(locked, shell, {"root"}, events).1 == []
  {
    BigIdsDiffer(249);
    hide BigJobs, Run, Render, Creations, Load;
    CreationsReach(249, shell);
    BigLoads(249, Some(Render(BigJobs(249), shell)));
    var locked := Run(System(Files(None, None), map[]), shell, {"root"}, Creations(249)).0;
    UnreadableForever(locked, shell, {"root"}, events);
  }

  /** One ordinary job is enough once its account is removed: the list it was committed to cannot be read any more, and
      no run of any clients changes it again. */
  lemma RemovedAccountLocksOut(shell: string, events: seq<Event>)
    ensures Run(System(Files(None, None), map[]), shell, {"root"}, Creations(1)).0.files == BigFiles(1, shell)
    ensures Load(BigFiles(1, shell), {"root"}).Some? && Load(BigFiles(1, shell), {}).None?
    ensures Run(System(BigFiles(1, shell), map[]), shell, {}, events).0.files == BigFiles(1, shell)
  {
    CreationsReach(1, shell);
    BigLoad(1, shell);
    assert !AllValid(BigJobs(1), {}) by { assert BigJobs(1)[0].user !in {}; }
    hide BigJobs, Run, Render, Creations, StateBytes, AllValid;
    assert Load(BigFiles(1, shell), {}).None?;
    hide Load;
    UnreadableForever(System(BigFiles(1, shell), map[]), shell, {}, events);
  }
}
