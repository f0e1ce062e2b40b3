/** What an edit does to a job list, when a call is done, and what cron reads in the rendered file, all stated without
    the functions that compute them. */
module CronMeaning {
  import opened Text
  import opened Cron
  import opened CronProofs

  // ---- edits, index by index ----------------------------------------------

  /** The first job with an identifier stands at an index. */
  predicate FirstAt(jobs: seq<Job>, id: string, k: nat) {
    k < |jobs| && jobs[k].id == id && forall i :: 0 <= i < k ==> jobs[i].id != id
  }

  /** Creating keeps the whole list and adds the job last. */
  lemma CreateMeaning(jobs: seq<Job>, job: Job)
    ensures var next := Edited(Create(job), jobs);
      && next.Some? && |next.value| == |jobs| + 1 && next.value[|jobs|] == job
      && forall i :: 0 <= i < |jobs| ==> next.value[i] == jobs[i]
  {}

  /** Updating fails exactly when no job has the identifier; otherwise it replaces the first one and no other. */
  lemma UpdateMeaning(jobs: seq<Job>, job: Job, k: nat)
    ensures Edited(Update(job), jobs).None? <==> forall i :: 0 <= i < |jobs| ==> jobs[i].id != job.id
    ensures FirstAt(jobs, job.id, k) ==>
      var next := Edited(Update(job), jobs);
      && next.Some? && |next.value| == |jobs|
      && forall i :: 0 <= i < |jobs| ==> next.value[i] == if i == k then job else jobs[i]
  {
    if FirstAt(jobs, job.id, k) { FirstIs(jobs, job.id, k); }
  }

  /** Deleting fails exactly when no job has the identifier; otherwise it takes out the first one, and the others keep
      their order. */
  lemma DeleteMeaning(jobs: seq<Job>, id: string, k: nat)
    ensures Edited(Delete(id), jobs).None? <==> forall i :: 0 <= i < |jobs| ==> jobs[i].id != id
    ensures FirstAt(jobs, id, k) ==>
      var next := Edited(Delete(id), jobs);
      && next.Some? && |next.value| == |jobs| - 1
      && forall i :: 0 <= i < |jobs| - 1 ==> next.value[i] == jobs[if i < k then i else i + 1]
  {
    if FirstAt(jobs, id, k) { FirstIs(jobs, id, k); }
  }

  lemma {:induction false} FirstIs(jobs: seq<Job>, id: string, k: nat)
    requires FirstAt(jobs, id, k)
    ensures FirstWith(jobs, id) == k
  {
    if k > 0 { FirstIs(jobs[1..], id, k - 1); }
  }

  // ---- when a call is done ------------------------------------------------

  /** A call commits exactly when its edit is valid, the list can be read and is the one it names, the job to change is
      there, the new list is valid and within the limit, and nothing on the way fails. It answers "changed" exactly when
      a readable list is not the one it names, and "not found" exactly when the job is not in it. */
  lemma MutateDoneIff(files: Files, shell: string, users: set<string>, e: Edit, expected: Revision, f: Faults)
    ensures var result := Mutated(files, shell, users, e, expected, f).1;
      var valid := if e.Delete? then JobId(e.id) else Valid(e.job, users);
      var loaded := valid && !f.lock && Load(files, users).Some?;
      var named := loaded && expected == Digest(Jobs(files));
      && (result == Done <==>
            && named && Edited(e, Jobs(files)).Some? && |Edited(e, Jobs(files)).value| <= 256
            && AllValid(Edited(e, Jobs(files)).value, users)
            && !f.syntax && !f.prepare && !f.cronWrite && !f.stateWrite)
      && (result == NotFound <==> named && Edited(e, Jobs(files)).None?)
      && (result == Changed <==>
            valid && (expected.Malformed? || (!f.lock && Load(files, users).Some? && expected != Digest(Jobs(files)))))
  {
    hide Edited, AllValid, Valid, JobId, StateBytes, Render;
  }

  // ---- what cron reads ----------------------------------------------------

  lemma BlankAppend(a: string, b: string)
    requires Fields(a) == []
    ensures Fields(a + b) == Fields(b)
  {
    FieldsUnlessBlank(a);
    assert a[..|a|] == a;
    hide Fields;
    FieldsSkip(a, b);
  }

  lemma {:induction false} FieldsAppend(a: string, b: string)
    requires b != "" && IsSpace(b[0])
    ensures Fields(a + b) == Fields(a) + Fields(b)
    decreases |a|
  {
    hide Fields, IsSpace;
    if Fields(a) == [] {
      BlankAppend(a, b);
      assert [] + Fields(b) == Fields(b);
    } else {
      var blank, word, rest := FirstField(a);
      assert a + b == blank + word + (rest + b);
      assert rest == "" ==> rest + b == b;
      FieldsStep(blank, word, rest + b);
      FieldsAppend(rest, b);
      assert [word] + (Fields(rest) + Fields(b)) == [word] + Fields(rest) + Fields(b);
    }
  }

  lemma OneBlank(rest: string)
    ensures Fields(" " + rest) == Fields(rest) && Fields(" ") == []
  {
    FieldsSkip(" ", rest);
    FieldsBlank(" ");
  }

  /** A line that cron takes for a job's: the five schedule fields, the user as the sixth word, and after it and one
      blank the command as it is. */
  ghost predicate ReadsAs(line: string, job: Job) {
    && |Fields(line)| >= 6 && Fields(line)[..5] == Fields(job.schedule) && Fields(line)[5] == job.user
    && exists head: string :: HeadOf(head, job) && line == head + job.user + " " + job.command
  }

  /** The schedule fields and a blank. */
  predicate HeadOf(head: string, job: Job) {
    head != "" && IsSpace(head[|head| - 1]) && Fields(head) == Fields(job.schedule)
  }

  /** The words of a schedule, a user and a command on one line. */
  lemma LineFields(schedule: string, user: string, command: string)
    requires Token(user)
    ensures Fields(schedule + " " + user + " " + command) == Fields(schedule) + ([user] + Fields(" " + command))
    ensures Fields(schedule + " ") == Fields(schedule)
  {
    hide Fields;
    var tail := " " + user + (" " + command);
    FieldsAppend(schedule, tail);
    FieldsStep(" ", user, " " + command);
    assert schedule + tail == schedule + " " + user + " " + command;
    FieldsAppend(schedule, " ");
    OneBlank("");
    assert Fields(schedule) + [] == Fields(schedule);
  }

  lemma JobLineReads(job: Job, users: set<string>)
    requires Valid(job, users)
    ensures ReadsAs(JobLine(job), job)
  {
    UserIsToken(job.user);
    hide Bytes, Fields, UserName, JobId, OneLine, Token;
    LineFields(job.schedule, job.user, job.command);
    var head := job.schedule + " ";
    assert HeadOf(head, job);
    assert JobLine(job) == head + job.user + " " + job.command;
  }

  lemma UserIsToken(user: string)
    requires UserName(user)
    ensures Token(user)
  {}

  /** The three lines of a job: an empty one, its title, and its line, behind a mark when it is disabled. */
  ghost predicate ShowsJob(first: string, second: string, third: string, job: Job) {
    && first == ""
    && second == "# HSERVER " + job.id + (if job.description == "" then "" else " - " + job.description)
    && (job.enabled ==> ReadsAs(third, job))
    && (!job.enabled ==> "# DISABLED " <= third && ReadsAs(third[11..], job))
  }

  lemma JobLinesShow(job: Job, users: set<string>)
    requires Valid(job, users)
    ensures |JobLines(job)| == 3 && ShowsJob(JobLines(job)[0], JobLines(job)[1], JobLines(job)[2], job)
  {
    JobLineReads(job, users);
    hide ReadsAs, Valid;
    var marked := "# DISABLED " + JobLine(job);
    assert |"# DISABLED "| == 11 && marked[11..] == JobLine(job);
    var title := "# HSERVER " + job.id;
    assert title + "" == title;
  }

  lemma {:induction false} BodyLineAt(jobs: seq<Job>, i: nat, j: nat)
    requires i < |jobs| && j < 3
    ensures |BodyLines(jobs)| == 3 * |jobs| && |JobLines(jobs[i])| == 3
    ensures BodyLines(jobs)[3 * i + j] == JobLines(jobs[i])[j]
    decreases |jobs|
  {
    ThreeLines(jobs[0]);
    ThreeLines(jobs[i]);
    hide JobLines;
    if |jobs| > 1 {
      BodyLineAt(jobs[1..], if i > 0 then i - 1 else 0, j);
    } else {
      assert BodyLines(jobs[1..]) == [];
    }
  }

  lemma BodySize(jobs: seq<Job>)
    ensures |BodyLines(jobs)| == 3 * |jobs|
  {
    if jobs != [] { BodyLineAt(jobs, 0, 0); }
  }

  lemma SliceOfThree(s: seq<string>, k: nat, block: seq<string>)
    requires |block| == 3 && k + 3 <= |s| && s[k] == block[0] && s[k + 1] == block[1] && s[k + 2] == block[2]
    ensures s[k..k + 3] == block
  {}

  lemma BodyBlock(jobs: seq<Job>, i: nat)
    requires i < |jobs|
    ensures |BodyLines(jobs)| == 3 * |jobs| && |JobLines(jobs[i])| == 3
    ensures BodyLines(jobs)[3 * i..3 * i + 3] == JobLines(jobs[i])
  {
    hide BodyLines, JobLines;
    BodyLineAt(jobs, i, 0);
    BodyLineAt(jobs, i, 1);
    BodyLineAt(jobs, i, 2);
    SliceOfThree(BodyLines(jobs), 3 * i, JobLines(jobs[i]));
  }

  lemma BodyShows(jobs: seq<Job>, users: set<string>, i: nat)
    requires AllValid(jobs, users) && i < |jobs|
    ensures |BodyLines(jobs)| == 3 * |jobs|
    ensures var body := BodyLines(jobs); ShowsJob(body[3 * i], body[3 * i + 1], body[3 * i + 2], jobs[i])
  {
    JobLinesShow(jobs[i], users);
    BodyBlock(jobs, i);
    hide Valid, AllValid, BodyLines, JobLines, ShowsJob;
    var block := BodyLines(jobs)[3 * i..3 * i + 3];
    assert block[0] == BodyLines(jobs)[3 * i] && block[1] == BodyLines(jobs)[3 * i + 1];
    assert block[2] == BodyLines(jobs)[3 * i + 2];
  }

  lemma RenderedSplit(jobs: seq<Job>, shell: string, users: set<string>)
    requires AllValid(jobs, users) && '\n' !in shell
    ensures SplitOn(Render(jobs, shell), '\n') == HeadLines(shell) + (BodyLines(jobs) + [""])
  {
    BodyPlain(jobs, users);
    HeadPlain(shell);
    HeadLength(shell);
    hide SplitOn, Unlines, HeadLines, BodyLines, AllValid;
    SplitUnlines(FileLines(jobs, shell));
    assert FileLines(jobs, shell) + [""] == HeadLines(shell) + (BodyLines(jobs) + [""]);
  }

  /** The rendered file, line by line: the notice, the shell, the search path, three lines for each job in order, and
      nothing behind the last newline. */
  lemma RenderedFile(jobs: seq<Job>, shell: string, users: set<string>)
    requires AllValid(jobs, users) && '\n' !in shell
    ensures var lines := SplitOn(Render(jobs, shell), '\n');
      && |lines| == 3 * |jobs| + 4 && lines[|lines| - 1] == ""
      && lines[0] == "#" + NOTICE && lines[1] == "SHELL=" + shell && lines[2] == "PATH=" + SEARCH_PATH
      && forall i :: 0 <= i < |jobs| ==> ShowsJob(lines[3 * i + 3], lines[3 * i + 4], lines[3 * i + 5], jobs[i])
  {
    var head, body := HeadLines(shell), BodyLines(jobs);
    assert |head| == 3 && head[0] == "#" + NOTICE && head[1] == "SHELL=" + shell && head[2] == "PATH=" + SEARCH_PATH;
    RenderedSplit(jobs, shell, users);
    BodySize(jobs);
    hide SplitOn, Render, HeadLines, BodyLines, ShowsJob, AllValid;
    var lines := SplitOn(Render(jobs, shell), '\n');
    forall i | 0 <= i < |jobs|
      ensures ShowsJob(lines[3 * i + 3], lines[3 * i + 4], lines[3 * i + 5], jobs[i])
    {
      BodyShows(jobs, users, i);
      BodyInFile(head, body, lines, 3 * i);
    }
  }

  lemma BodyInFile(head: seq<string>, body: seq<string>, lines: seq<string>, k: nat)
    requires |head| == 3 && lines == head + (body + [""]) && k + 2 < |body|
    ensures lines[k + 3] == body[k] && lines[k + 4] == body[k + 1] && lines[k + 5] == body[k + 2]
  {}

  /** The enabled jobs that a reader of the file counts. */
  function Counted(jobs: seq<Job>): seq<Job>
    requires forall i :: 0 <= i < |jobs| ==> Fields(jobs[i].schedule) != []
  {
    if jobs == [] then []
    else (if jobs[0].enabled && Visible(jobs[0]) then [jobs[0]] else []) + Counted(jobs[1..])
  }

  lemma {:induction false} EntryLinesRead(jobs: seq<Job>, users: set<string>)
    requires AllValid(jobs, users)
    requires forall i :: 0 <= i < |jobs| ==> Fields(jobs[i].schedule) != []
    ensures |EntryLines(jobs)| == |Counted(jobs)|
    ensures forall i :: 0 <= i < |Counted(jobs)| ==> ReadsAs(EntryLines(jobs)[i], Counted(jobs)[i])
    decreases |jobs|
  {
    hide Valid, ReadsAs, Fields, Visible, JobLine;
    if jobs != [] {
      EntryLinesRead(jobs[1..], users);
      assert Valid(jobs[0], users);
      JobLineReads(jobs[0], users);
    }
  }

  /** The entries of the rendered file are read, in order, as exactly the enabled jobs that no first schedule field
      hides. */
  lemma EntriesAreJobs(jobs: seq<Job>, shell: string, users: set<string>)
    requires AllValid(jobs, users) && '\n' !in shell
    ensures forall i :: 0 <= i < |jobs| ==> Fields(jobs[i].schedule) != []
    ensures var entries := Entries(SplitOn(Render(jobs, shell), '\n'));
      && |entries| == |Counted(jobs)|
      && forall i :: 0 <= i < |entries| ==> ReadsAs(entries[i], Counted(jobs)[i])
  {
    RenderedEntries(jobs, shell, users);
    hide Render, SplitOn, Entries, Fields, ReadsAs, Valid, EntryLines, Counted;
    EntryLinesRead(jobs, users);
  }

  // ---- the size of the state file -----------------------------------------

  function HexDigitOf(n: nat): char
    requires n < 16
  {
    if n < 10 then '0' + n as char else 'a' + (n - 10) as char
  }

  /** A character inside a JSON string, as Go writes it. */
  function JsonChar(c: char): string {
    var n := c as int;
    if c == '"' then "\\\"" else if c == '\\' then "\\\\"
    else if n == 8 then "\\b" else if n == 9 then "\\t" else if n == 10 then "\\n"
    else if n == 12 then "\\f" else if n == 13 then "\\r"
    else if n == 0x2028 then "\\u2028" else if n == 0x2029 then "\\u2029"
    else if n < 0x20 || c == '<' || c == '>' || c == '&' then
      "\\u" + "00" + [HexDigitOf(n / 16), HexDigitOf(n % 16)]
    else [c]
  }

  function JsonString(s: string): string { if s == "" then "" else JsonChar(s[0]) + JsonString(s[1..]) }

  /** One property on a line of its own, without what follows it. */
  function Property(key: string, value: string): string { "    \"" + key + "\": " + value }

  function Quoted(s: string): string { "\"" + JsonString(s) + "\"" }

  function Field(key: string, s: string): string { Property(key, Quoted(s)) + ",\n" }

  function Note(job: Job): string { if job.description != "" then Field("description", job.description) else "" }

  function Last(job: Job): string { Property("enabled", if job.enabled then "true" else "false") + "\n  }" }

  function JsonJob(job: Job): string {
    "  {\n" + (Field("id", job.id) + (Field("schedule", job.schedule) + (Field("user", job.user) +
    (Field("command", job.command) + (Note(job) + Last(job))))))
  }

  /** The jobs, with a comma and a newline behind each. */
  function JsonJobs(jobs: seq<Job>): string {
    if jobs == [] then "" else JsonJob(jobs[0]) + ",\n" + JsonJobs(jobs[1..])
  }

  /** The text of the state file: an indented array, and a newline at its end. */
  function JsonState(jobs: seq<Job>): string {
    if jobs == [] then "[]\n"
    else
      var items := JsonJobs(jobs);
      ListEnds(jobs);
      "[\n" + items[..|items| - 2] + "\n]\n"
  }

  lemma ListEnds(jobs: seq<Job>)
    requires jobs != []
    ensures |JsonJobs(jobs)| >= 2
  {
    hide JsonJob;
  }

  lemma {:induction false} BytesJoin(a: string, b: string)
    ensures Bytes(a + b) == Bytes(a) + Bytes(b)
  {
    if a == "" {
      assert a + b == b;
    } else {
      assert (a + b)[1..] == a[1..] + b;
      BytesJoin(a[1..], b);
    }
  }

  predicate Ascii(s: string) { forall i :: 0 <= i < |s| ==> s[i] as int < 0x80 }

  lemma {:induction false} AsciiBytes(s: string)
    requires Ascii(s)
    ensures Bytes(s) == |s|
  {
    if s != "" { AsciiBytes(s[1..]); }
  }

  lemma JsonCharSize(c: char)
    ensures Bytes(JsonChar(c)) == JsonCharBytes(c)
  {
    var s := JsonChar(c);
    if s == [c] {
      assert s[1..] == "";
      assert Bytes(s) == CharBytes(c) + Bytes("");
    } else {
      assert Ascii(s) && |s| == JsonCharBytes(c);
      AsciiBytes(s);
    }
  }

  lemma {:induction false} JsonStringSize(s: string)
    ensures Bytes(JsonString(s)) == JsonTextBytes(s)
  {
    hide JsonChar, JsonCharBytes;
    if s != "" {
      JsonCharSize(s[0]);
      JsonStringSize(s[1..]);
      BytesJoin(JsonChar(s[0]), JsonString(s[1..]));
    }
  }

  lemma QuotedSize(s: string)
    ensures Bytes(Quoted(s)) == 2 + JsonTextBytes(s)
  {
    JsonStringSize(s);
    hide JsonString, JsonTextBytes, Bytes;
    AsciiBytes("\"");
    BytesJoin("\"" + JsonString(s), "\"");
    BytesJoin("\"", JsonString(s));
  }

  /** A property with the comma and the newline behind it. */
  lemma PropertySize(key: string, value: string, tail: string)
    requires Ascii(key) && Ascii(tail) && |tail| >= 2
    ensures Bytes(Property(key, value) + tail) == JsonFieldBytes(key, Bytes(value)) + |tail| - 2
  {
    hide Bytes;
    AsciiBytes("    \"");
    AsciiBytes(key);
    AsciiBytes("\": ");
    AsciiBytes(tail);
    BytesJoin("    \"", key);
    BytesJoin("    \"" + key, "\": ");
    BytesJoin("    \"" + key + "\": ", value);
    BytesJoin(Property(key, value), tail);
  }

  lemma FieldSize(key: string, s: string)
    requires Ascii(key)
    ensures Bytes(Field(key, s)) == JsonFieldBytes(key, 2 + JsonTextBytes(s))
  {
    hide Bytes, Property, Quoted, JsonTextBytes, JsonFieldBytes;
    assert Ascii(",\n");
    PropertySize(key, Quoted(s), ",\n");
    QuotedSize(s);
  }

  lemma SevenPieces(a: string, b: string, c: string, d: string, e: string, f: string, g: string)
    ensures Bytes(a + (b + (c + (d + (e + (f + g)))))) ==
            Bytes(a) + Bytes(b) + Bytes(c) + Bytes(d) + Bytes(e) + Bytes(f) + Bytes(g)
  {
    hide Bytes;
    BytesJoin(f, g);
    BytesJoin(e, f + g);
    BytesJoin(d, e + (f + g));
    BytesJoin(c, d + (e + (f + g)));
    BytesJoin(b, c + (d + (e + (f + g))));
    BytesJoin(a, b + (c + (d + (e + (f + g)))));
  }

  lemma NoteSize(job: Job)
    ensures Bytes(Note(job)) ==
      if job.description != "" then JsonFieldBytes("description", 2 + JsonTextBytes(job.description)) else 0
  {
    KeyAscii();
    assert Bytes("") == 0;
    hide Bytes, Field, JsonTextBytes, JsonFieldBytes;
    FieldSize("description", job.description);
  }

  lemma LastSize(job: Job)
    ensures Bytes(Last(job)) == JsonFieldBytes("enabled", if job.enabled then 4 else 5) - 2 + 4
  {
    var word := if job.enabled then "true" else "false";
    KeyAscii();
    hide Bytes, Property, JsonFieldBytes, Ascii;
    AsciiBytes(word);
    PropertySize("enabled", word, "\n  }");
  }

  lemma JobSize(job: Job)
    ensures Bytes(JsonJob(job)) == JobBytes(job)
  {
    KeyAscii();
    hide Bytes, Field, JsonTextBytes, JsonFieldBytes, Ascii, Note, Last;
    FieldSize("id", job.id);
    FieldSize("schedule", job.schedule);
    FieldSize("user", job.user);
    FieldSize("command", job.command);
    NoteSize(job);
    LastSize(job);
    AsciiBytes("  {\n");
    SevenPieces("  {\n", Field("id", job.id), Field("schedule", job.schedule), Field("user", job.user),
                Field("command", job.command), Note(job), Last(job));
  }

  lemma KeyAscii()
    ensures Ascii("id") && Ascii("schedule") && Ascii("user") && Ascii("command") && Ascii("description")
    ensures Ascii("enabled") && Ascii("true") && Ascii("false") && Ascii("\n  }") && Ascii("  {\n")
  {}

  lemma {:induction false} JobsSize(jobs: seq<Job>)
    ensures Bytes(JsonJobs(jobs)) == JobsBytes(jobs)
  {
    hide JsonJob, JobBytes;
    if jobs != [] {
      JobSize(jobs[0]);
      JobsSize(jobs[1..]);
      AsciiBytes(",\n");
      hide Bytes;
      BytesJoin(JsonJob(jobs[0]), ",\n");
      BytesJoin(JsonJob(jobs[0]) + ",\n", JsonJobs(jobs[1..]));
    }
  }

  lemma {:induction false} JobsEnd(jobs: seq<Job>)
    requires jobs != []
    ensures var items := JsonJobs(jobs); |items| >= 2 && items[|items| - 2..] == ",\n"
  {
    hide JsonJob;
    if |jobs| > 1 {
      JobsEnd(jobs[1..]);
    } else {
      assert JsonJobs(jobs[1..]) == "";
    }
  }

  /** The size the limit is compared with is the number of bytes of the text that is written. */
  lemma StateBytesIsText(jobs: seq<Job>)
    ensures StateBytes(jobs) == Bytes(JsonState(jobs))
  {
    if jobs == [] {
      AsciiBytes("[]\n");
    } else {
      JobsSize(jobs);
      JobsEnd(jobs);
      hide JsonJobs, JobsBytes, Bytes;
      var items := JsonJobs(jobs);
      var body := items[..|items| - 2];
      assert items == body + ",\n";
      AsciiBytes(",\n");
      AsciiBytes("[\n");
      AsciiBytes("\n]\n");
      BytesJoin(body, ",\n");
      BytesJoin("[\n", body);
      BytesJoin("[\n" + body, "\n]\n");
    }
  }
}
