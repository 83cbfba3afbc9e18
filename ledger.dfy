/** The shared job ledger and its lock: `build_job_list`, `atomic_lock`/`atomic_unlock`,
    `claim_next_job`, `mark_job_done`, `check_all_done` and one pass of the `run()` loop.
    The ledger file is a text of lines `<file name>,<status>`; every operation reads its
    lines, parses each one with `line.strip().split(",", 1)` and writes back a list in
    which untouched lines are copied verbatim and rewritten lines are `fn,STATUS\n`. */
module Ledger {
  import opened Wrappers
  import opened Text

  const Pending := "PENDING"
  const InProgress := "IN_PROGRESS"
  const Done := "DONE"

  /** The seconds `atomic_lock` sleeps after each failed attempt. */
  const PollInterval: real := 0.25
  /** `atomic_lock(folder)` is always called with its default timeout. */
  const DefaultTimeout: real := 30.0

  /** What the ledger operations raise. `MalformedLine(k)`: line `k` has no comma, so
      unpacking `split(",", 1)` into two names fails. */
  datatype LedgerError = LockTimeout | NoLedger | MalformedLine(index: nat)

  /** A parsed ledger line. */
  datatype Entry = Entry(name: string, status: string)

  // ---------------------------------------------------------------- one line

  /** `fn, status = line.strip().split(",", 1)`; None when the unpacking raises. */
  function ParseLine(line: string): Option<Entry> {
    var s := Strip(line);
    var c := IndexOf(s, ',');
    if c == |s| then None else Some(Entry(s[..c], s[c + 1..]))
  }

  /** Parsing fails exactly when the stripped line has no comma; otherwise the name is the
      text before the first comma and the status everything after it. */
  lemma ParseLineMeaning(line: string)
    ensures ParseLine(line).Some? <==> ',' in Strip(line)
    ensures ParseLine(line).Some? ==>
      var e := ParseLine(line).value;
      ',' !in e.name && e.name + "," + e.status == Strip(line)
  {
    var s := Strip(line);
    var c := IndexOf(s, ',');
    IndexOfMeaning(s, ',');
    if c < |s| {
      assert s[..c] + "," + s[c + 1..] == s;
    }
  }

  /** The line `f"{fn},{status}\n"` written for a rewritten job. */
  function JobLine(name: string, status: string): string {
    name + "," + status + "\n"
  }

  predicate StatusIs(line: string, status: string) {
    ParseLine(line).Some? && ParseLine(line).value.status == status
  }

  function NameOf(line: string): string
    requires ParseLine(line).Some?
  {
    ParseLine(line).value.name
  }

  /** A job name as parsing yields it from a line that `readlines` produced. */
  predicate PlainName(name: string) {
    ',' !in name && '\n' !in name && (|name| > 0 ==> !IsSpace(name[0]))
  }

  lemma ParsedNameIsPlain(line: string)
    requires IsLine(line) && ParseLine(line).Some?
    ensures PlainName(NameOf(line))
  {
    StripDropsFinalNewline(line);
    StripMeaning(line);
    ParseLineMeaning(line);
    var s := Strip(line);
    var name := NameOf(line);
    assert s == name + "," + ParseLine(line).value.status;
    assert |name| > 0 ==> name[0] == s[0];
    forall k | 0 <= k < |name| ensures name[k] != '\n' { assert name[k] == s[k]; }
  }

  /** A rewritten line parses back to the name and status it was written with. */
  lemma ParseJobLine(name: string, status: string)
    requires PlainName(name)
    requires status in [Pending, InProgress, Done]
    ensures IsLine(JobLine(name, status))
    ensures ParseLine(JobLine(name, status)) == Some(Entry(name, status))
  {
    assert |status| > 0 && !IsSpace(status[|status| - 1]) && '\n' !in status;
    StripJobLine(name, status);
    var s := name + "," + status;
    CommaAfterName(name, status);
    assert s[..|name|] == name && s[|name| + 1..] == status;
  }

  lemma StripJobLine(name: string, status: string)
    requires PlainName(name)
    requires |status| > 0 && !IsSpace(status[|status| - 1]) && '\n' !in status
    ensures IsLine(JobLine(name, status))
    ensures Strip(JobLine(name, status)) == name + "," + status
  {
    var s := name + "," + status;
    assert JobLine(name, status) == s + ['\n'];
    assert s[0] == if |name| > 0 then name[0] else ',';
    assert s[|s| - 1] == status[|status| - 1];
    forall k | 0 <= k < |s| ensures s[k] != '\n' {
      if k < |name| { assert s[k] == name[k]; }
      else if k > |name| { assert s[k] == status[k - |name| - 1]; }
    }
    StripTrailingSpace(s, '\n');
  }

  lemma CommaAfterName(name: string, rest: string)
    requires ',' !in name
    ensures IndexOf(name + "," + rest, ',') == |name|
  {
    var s := name + "," + rest;
    IndexOfMeaning(s, ',');
    assert s[|name|] == ',';
    forall k | 0 <= k < |name| ensures s[k] != ',' {
      assert s[k] == name[k];
    }
  }

  // ---------------------------------------------------------------- scans of the whole ledger

  /** Index of the first line that does not parse (|lines| if all do): the line at which
      a loop over every line raises. */
  function FirstMalformed(lines: seq<string>): (k: nat)
    ensures k <= |lines|
    ensures forall i :: 0 <= i < k ==> ParseLine(lines[i]).Some?
    ensures k < |lines| ==> ParseLine(lines[k]).None?
  {
    if lines == [] then 0
    else if ParseLine(lines[0]).None? then 0
    else 1 + FirstMalformed(lines[1..])
  }

  /** Index of the first line whose parsed status is `status` (|lines| if none). */
  function FirstWith(lines: seq<string>, status: string): (k: nat)
    ensures k <= |lines|
    ensures forall i :: 0 <= i < k ==> !StatusIs(lines[i], status)
    ensures k < |lines| ==> StatusIs(lines[k], status)
  {
    if lines == [] then 0
    else if StatusIs(lines[0], status) then 0
    else 1 + FirstWith(lines[1..], status)
  }

  /** Index of the first line that is not a parsed `DONE` line (|lines| if none). */
  function FirstNotDone(lines: seq<string>): (k: nat)
    ensures k <= |lines|
    ensures forall i :: 0 <= i < k ==> StatusIs(lines[i], Done)
    ensures k < |lines| ==> !StatusIs(lines[k], Done)
  {
    if lines == [] then 0
    else if !StatusIs(lines[0], Done) then 0
    else 1 + FirstNotDone(lines[1..])
  }

  function CountStatus(lines: seq<string>, status: string): nat {
    if lines == [] then 0
    else (if StatusIs(lines[0], status) then 1 else 0) + CountStatus(lines[1..], status)
  }

  function PendingCount(text: string): nat {
    CountStatus(Lines(text), Pending)
  }

  // ---------------------------------------------------------------- the line rewrites

  datatype Claimed = Claimed(index: nat, name: string)

  /** The lines `claim_next_job` writes back, and the line it claimed (`claimed_file`). */
  datatype Claim = Claim(lines: seq<string>, claimed: Option<Claimed>)

  /** The loop of `claim_next_job`: the first `PENDING` line becomes `fn,IN_PROGRESS\n`;
      it raises at the first line that does not parse. */
  function ClaimLines(lines: seq<string>): Result<Claim, nat> {
    var bad := FirstMalformed(lines);
    if bad < |lines| then Failure(bad)
    else
      var k := FirstWith(lines, Pending);
      if k == |lines| then Success(Claim(lines, None))
      else
        var name := NameOf(lines[k]);
        Success(Claim(lines[k := JobLine(name, InProgress)], Some(Claimed(k, name))))
  }

  /** `os.path.join(main_folder, claimed_file) if claimed_file else None`. */
  function ClaimedPath(folder: string, claimed: Option<Claimed>): Option<string> {
    if claimed.Some? && claimed.value.name != "" then Some(PathJoin(folder, claimed.value.name))
    else None
  }

  function MarkOne(line: string, base: string): string {
    match ParseLine(line)
    case Some(e) => if e.name == base then JobLine(e.name, Done) else line
    case None => line
  }

  /** The loop of `mark_job_done`: every line named `basename(filename)` becomes
      `fn,DONE\n`; it raises at the first line that does not parse. */
  function MarkLines(lines: seq<string>, filename: string): Result<seq<string>, nat> {
    var bad := FirstMalformed(lines);
    if bad < |lines| then Failure(bad)
    else
      var base := Basename(filename);
      Success(seq(|lines|, i requires 0 <= i < |lines| => MarkOne(lines[i], base)))
  }

  /** The loop of `check_all_done`: it stops at the first line that is not `DONE`,
      raising if that line does not parse and answering False otherwise. */
  function AllDone(lines: seq<string>): Result<bool, nat> {
    var k := FirstNotDone(lines);
    if k == |lines| then Success(true)
    else if ParseLine(lines[k]).None? then Failure(k)
    else Success(false)
  }

  /** `check_all_done` on a ledger that may be absent. */
  function CheckAllDoneSpec(ledger: Option<string>): Result<bool, LedgerError> {
    if ledger.None? then Success(true)
    else match AllDone(Lines(ledger.value))
      case Success(b) => Success(b)
      case Failure(k) => Failure(MalformedLine(k))
  }

  /** The lines `build_job_list` writes: one `name,PENDING\n` per globbed file. */
  function JobLines(files: seq<string>): seq<string> {
    seq(|files|, i requires 0 <= i < |files| => JobLine(Basename(files[i]), Pending))
  }

  // ---------------------------------------------------------------- the loops

  /** The `for line in lines` loop of `claim_next_job` (new-qgis-workflow-8-8-25.py:100-106). */
  method ClaimScan(lines: seq<string>) returns (r: Result<Claim, nat>)
    ensures r == ClaimLines(lines)
  {
    var newLines: seq<string> := [];
    var claimed: Option<Claimed> := None;
    var i := 0;
    while i < |lines|
      invariant 0 <= i <= |lines|
      invariant forall j :: 0 <= j < i ==> ParseLine(lines[j]).Some?
      invariant |newLines| == i
      invariant forall j :: 0 <= j < i && (claimed.None? || j != claimed.value.index) ==> newLines[j] == lines[j]
      invariant claimed.None? ==> forall j :: 0 <= j < i ==> !StatusIs(lines[j], Pending)
      invariant claimed.Some? ==>
        && claimed.value.index == FirstWith(lines, Pending) < i
        && claimed.value.name == NameOf(lines[claimed.value.index])
        && newLines[claimed.value.index] == JobLine(claimed.value.name, InProgress)
    {
      var line := lines[i];
      var parsed := ParseLine(line);
      if parsed.None? {
        assert FirstMalformed(lines) == i;
        return Failure(i);
      }
      var e := parsed.value;
      if e.status == Pending && claimed.None? {
        newLines := newLines + [JobLine(e.name, InProgress)];
        claimed := Some(Claimed(i, e.name));
      } else {
        newLines := newLines + [line];
      }
      i := i + 1;
    }
    if claimed.Some? {
      assert newLines == lines[claimed.value.index := JobLine(claimed.value.name, InProgress)];
    } else {
      assert newLines == lines;
    }
    return Success(Claim(newLines, claimed));
  }

  /** The `for line in lines` loop of `mark_job_done` (new-qgis-workflow-8-8-25.py:118-123). */
  method MarkScan(lines: seq<string>, filename: string) returns (r: Result<seq<string>, nat>)
    ensures r == MarkLines(lines, filename)
  {
    var base := Basename(filename);
    var newLines: seq<string> := [];
    var i := 0;
    while i < |lines|
      invariant 0 <= i <= |lines|
      invariant forall j :: 0 <= j < i ==> ParseLine(lines[j]).Some?
      invariant |newLines| == i
      invariant forall j :: 0 <= j < i ==> newLines[j] == MarkOne(lines[j], base)
    {
      var parsed := ParseLine(lines[i]);
      if parsed.None? {
        assert FirstMalformed(lines) == i;
        return Failure(i);
      }
      if parsed.value.name == base {
        newLines := newLines + [JobLine(parsed.value.name, Done)];
      } else {
        newLines := newLines + [lines[i]];
      }
      i := i + 1;
    }
    assert FirstMalformed(lines) == |lines|;
    assert newLines == seq(|lines|, j requires 0 <= j < |lines| => MarkOne(lines[j], base));
    return Success(newLines);
  }

  /** The `for line in f` loop of `check_all_done` (new-qgis-workflow-8-8-25.py:133-137). */
  method AllDoneScan(lines: seq<string>) returns (r: Result<bool, nat>)
    ensures r == AllDone(lines)
  {
    var i := 0;
    while i < |lines|
      invariant 0 <= i <= |lines|
      invariant forall j :: 0 <= j < i ==> StatusIs(lines[j], Done)
    {
      var parsed := ParseLine(lines[i]);
      if parsed.None? {
        return Failure(i);
      }
      if parsed.value.status != Done {
        return Success(false);
      }
      i := i + 1;
    }
    return Success(true);
  }

  // ---------------------------------------------------------------- the lock's retry loop

  /** The number of failed attempts after which `atomic_lock` raises: the first `n` with
      `n * 0.25 >= timeout` (the check follows every failed attempt, so at least one). */
  function MaxFailedAttempts(timeout: real): (n: nat)
    ensures n >= 1
    ensures n as real * PollInterval >= timeout
    ensures n > 1 ==> (n - 1) as real * PollInterval < timeout
  {
    var c := -((-4.0 * timeout).Floor);
    if c < 1 then 1 else c
  }

  /** The default timeout gives up after exactly 120 failed attempts (0.25 is exact in binary). */
  lemma DefaultTimeoutAttempts()
    ensures MaxFailedAttempts(DefaultTimeout) == 120
  {
    assert (-4.0 * DefaultTimeout).Floor == -120;
  }

  /** `atomic_lock`: `held(i)` says whether the lock file exists at attempt `i`. Returns the
      number of failed attempts before the create-exclusive open succeeded. */
  method AtomicLock(timeout: real, held: nat -> bool) returns (r: Result<nat, LedgerError>)
    ensures r.Success? ==>
      r.value < MaxFailedAttempts(timeout) && !held(r.value) && forall i :: 0 <= i < r.value ==> held(i)
    ensures r.Failure? ==>
      r.error == LockTimeout && forall i :: 0 <= i < MaxFailedAttempts(timeout) ==> held(i)
  {
    var waited: real := 0.0;
    var attempt: nat := 0;
    ghost var max := MaxFailedAttempts(timeout);
    while true
      invariant attempt < max
      invariant waited == attempt as real * PollInterval
      invariant forall i :: 0 <= i < attempt ==> held(i)
      decreases max - attempt
    {
      if !held(attempt) {
        return Success(attempt);
      }
      waited := waited + PollInterval;
      if waited >= timeout {
        assert attempt + 1 == max;
        return Failure(LockTimeout);
      }
      attempt := attempt + 1;
    }
  }

  // ---------------------------------------------------------------- properties of the rewrites

  /** `claim_next_job` raises iff some line does not parse, at the first such line; otherwise
      it rewrites only the first `PENDING` line, to the same name with `IN_PROGRESS`, copies
      every other line verbatim and keeps the line count; with no `PENDING` line nothing changes. */
  lemma ClaimRewritesFirstPending(lines: seq<string>)
    ensures ClaimLines(lines).Failure? <==> exists i :: 0 <= i < |lines| && ParseLine(lines[i]).None?
    ensures ClaimLines(lines).Failure? ==> ClaimLines(lines).error == FirstMalformed(lines)
    ensures ClaimLines(lines).Success? ==>
      var c := ClaimLines(lines).value;
      && |c.lines| == |lines|
      && (c.claimed.None? <==> forall i :: 0 <= i < |lines| ==> !StatusIs(lines[i], Pending))
      && (c.claimed.None? ==> c.lines == lines)
      && (c.claimed.Some? ==>
            var k := c.claimed.value.index;
            && k < |lines| && StatusIs(lines[k], Pending)
            && (forall i :: 0 <= i < k ==> !StatusIs(lines[i], Pending))
            && c.claimed.value.name == NameOf(lines[k])
            && c.lines[k] == JobLine(NameOf(lines[k]), InProgress)
            && forall i :: 0 <= i < |lines| && i != k ==> c.lines[i] == lines[i])
  {
    if exists i :: 0 <= i < |lines| && ParseLine(lines[i]).None? {
      var i :| 0 <= i < |lines| && ParseLine(lines[i]).None?;
      assert FirstMalformed(lines) <= i;
    }
  }

  /** A claimed line of a ledger read by `readlines` parses back as the same name `IN_PROGRESS`,
      and the rewritten list is again what `readlines` can return. */
  lemma ClaimedLineInProgress(lines: seq<string>)
    requires WellFormed(lines)
    requires ClaimLines(lines).Success?
    ensures WellFormed(ClaimLines(lines).value.lines)
    ensures var c := ClaimLines(lines).value;
      c.claimed.Some? ==>
        ParseLine(c.lines[c.claimed.value.index]) == Some(Entry(c.claimed.value.name, InProgress))
  {
    var c := ClaimLines(lines).value;
    if c.claimed.Some? {
      var k := c.claimed.value.index;
      ParsedNameIsPlain(lines[k]);
      ParseJobLine(c.claimed.value.name, InProgress);
      assert JobLine(c.claimed.value.name, InProgress)[|JobLine(c.claimed.value.name, InProgress)| - 1] == '\n';
    }
  }

  /** A claim on the ledger text leaves a text whose lines are the rewritten lines. */
  lemma ClaimRoundTrip(text: string)
    requires ClaimLines(Lines(text)).Success?
    ensures Lines(Join(ClaimLines(Lines(text)).value.lines)) == ClaimLines(Lines(text)).value.lines
  {
    ClaimedLineInProgress(Lines(text));
    LinesJoin(ClaimLines(Lines(text)).value.lines);
  }

  /** After a claim every line still parses, and the claimed line and every line before it
      are no longer `PENDING`. */
  lemma ClaimedLinesParse(lines: seq<string>)
    requires WellFormed(lines)
    requires ClaimLines(lines).Success?
    ensures var c := ClaimLines(lines).value;
      && FirstMalformed(c.lines) == |c.lines|
      && (c.claimed.Some? ==> FirstWith(c.lines, Pending) > c.claimed.value.index)
  {
    var c := ClaimLines(lines).value;
    ClaimRewritesFirstPending(lines);
    ClaimedLineInProgress(lines);
    forall i | 0 <= i < |c.lines| ensures ParseLine(c.lines[i]).Some? {
      if c.claimed.None? || i != c.claimed.value.index { assert c.lines[i] == lines[i]; }
    }
    if c.claimed.Some? {
      var k := c.claimed.value.index;
      assert !StatusIs(c.lines[k], Pending);
      forall i | 0 <= i < k ensures !StatusIs(c.lines[i], Pending) { assert c.lines[i] == lines[i]; }
    }
  }

  /** Two successive claims on the same ledger never take the same line: the second one
      claims a later line, since every line up to the first claimed one is no longer `PENDING`. */
  lemma SuccessiveClaimsDiffer(text: string)
    requires ClaimLines(Lines(text)).Success?
    requires ClaimLines(Lines(text)).value.claimed.Some?
    ensures var c1 := ClaimLines(Lines(text)).value;
      var text2 := Join(c1.lines);
      && ClaimLines(Lines(text2)).Success?
      && var c2 := ClaimLines(Lines(text2)).value;
         c2.claimed.Some? ==> c2.claimed.value.index > c1.claimed.value.index
  {
    ClaimRoundTrip(text);
    ClaimedLinesParse(Lines(text));
  }

  /** `mark_job_done` raises iff some line does not parse; otherwise every line named
      `basename(filename)` becomes that name `DONE`, whatever its old status, and every other
      line is copied verbatim. */
  lemma MarkRewritesMatching(lines: seq<string>, filename: string)
    requires WellFormed(lines)
    ensures MarkLines(lines, filename).Failure? <==> exists i :: 0 <= i < |lines| && ParseLine(lines[i]).None?
    ensures MarkLines(lines, filename).Success? ==>
      var m := MarkLines(lines, filename).value;
      && |m| == |lines|
      && WellFormed(m)
      && forall i :: 0 <= i < |lines| ==>
           if NameOf(lines[i]) == Basename(filename)
           then ParseLine(m[i]) == Some(Entry(NameOf(lines[i]), Done))
           else m[i] == lines[i]
  {
    if exists i :: 0 <= i < |lines| && ParseLine(lines[i]).None? {
      var i :| 0 <= i < |lines| && ParseLine(lines[i]).None?;
      assert FirstMalformed(lines) <= i;
    }
    if MarkLines(lines, filename).Success? {
      var m := MarkLines(lines, filename).value;
      forall i | 0 <= i < |lines|
        ensures IsLine(m[i]) && (i < |lines| - 1 ==> m[i][|m[i]| - 1] == '\n')
        ensures NameOf(lines[i]) == Basename(filename) ==> ParseLine(m[i]) == Some(Entry(NameOf(lines[i]), Done))
      {
        if NameOf(lines[i]) == Basename(filename) {
          ParsedNameIsPlain(lines[i]);
          ParseJobLine(NameOf(lines[i]), Done);
          assert m[i] == JobLine(NameOf(lines[i]), Done);
        }
      }
    }
  }

  /** Marking the path a claim returned marks the claimed line `DONE`: the claimed name
      holds no separator, so `basename(join(folder, fn)) == fn`. */
  lemma MarkAfterClaimHitsClaimedLine(folder: string, text: string)
    requires ClaimLines(Lines(text)).Success?
    requires ClaimedPath(folder, ClaimLines(Lines(text)).value.claimed).Some?
    requires '/' !in ClaimLines(Lines(text)).value.claimed.value.name
    ensures var c := ClaimLines(Lines(text)).value;
      var path := ClaimedPath(folder, c.claimed).value;
      var lines2 := Lines(Join(c.lines));
      && MarkLines(lines2, path).Success?
      && |MarkLines(lines2, path).value| == |c.lines| > c.claimed.value.index
      && ParseLine(MarkLines(lines2, path).value[c.claimed.value.index]) == Some(Entry(c.claimed.value.name, Done))
  {
    var lines := Lines(text);
    var c := ClaimLines(lines).value;
    var k := c.claimed.value.index;
    var name := c.claimed.value.name;
    var path := PathJoin(folder, name);
    ClaimRewritesFirstPending(lines);
    ClaimedLineInProgress(lines);
    ClaimRoundTrip(text);
    ClaimedLinesParse(lines);
    var lines2 := Lines(Join(c.lines));
    BasenameOfJoin(folder, name);
    MarkRewritesMatching(lines2, path);
    assert NameOf(lines2[k]) == name;
  }

  lemma {:induction false} CountStatusUpdate(lines: seq<string>, k: nat, x: string, status: string)
    requires k < |lines|
    ensures CountStatus(lines[k := x], status) ==
      CountStatus(lines, status) - (if StatusIs(lines[k], status) then 1 else 0) + (if StatusIs(x, status) then 1 else 0)
  {
    if k == 0 {
      assert lines[k := x][1..] == lines[1..];
    } else {
      assert lines[k := x][1..] == lines[1..][k - 1 := x];
      CountStatusUpdate(lines[1..], k - 1, x, status);
    }
  }

  lemma {:induction false} CountStatusPointwise(a: seq<string>, b: seq<string>, status: string)
    requires |a| == |b|
    requires forall i :: 0 <= i < |b| && StatusIs(b[i], status) ==> StatusIs(a[i], status)
    ensures CountStatus(b, status) <= CountStatus(a, status)
  {
    if a != [] {
      CountStatusPointwise(a[1..], b[1..], status);
    }
  }

  /** A successful claim of a line lowers the number of `PENDING` lines by exactly one. */
  lemma ClaimLowersPending(lines: seq<string>)
    requires WellFormed(lines)
    requires ClaimLines(lines).Success? && ClaimLines(lines).value.claimed.Some?
    ensures CountStatus(ClaimLines(lines).value.lines, Pending) == CountStatus(lines, Pending) - 1
  {
    var c := ClaimLines(lines).value;
    var k := c.claimed.value.index;
    ClaimedLineInProgress(lines);
    CountStatusUpdate(lines, k, JobLine(c.claimed.value.name, InProgress), Pending);
  }

  /** Marking never creates a `PENDING` line. */
  lemma MarkKeepsPendingDown(lines: seq<string>, filename: string)
    requires WellFormed(lines)
    requires MarkLines(lines, filename).Success?
    ensures CountStatus(MarkLines(lines, filename).value, Pending) <= CountStatus(lines, Pending)
  {
    MarkRewritesMatching(lines, filename);
    CountStatusPointwise(lines, MarkLines(lines, filename).value, Pending);
  }

  /** `check_all_done` answers True iff every line is a parsed `DONE` line (so an empty ledger
      counts as done), False iff the first line that is not `DONE` parses, and raises otherwise;
      on a ledger where every line parses it never raises. */
  lemma AllDoneMeaning(lines: seq<string>)
    ensures AllDone(lines) == Success(true) <==> forall i :: 0 <= i < |lines| ==> StatusIs(lines[i], Done)
    ensures AllDone(lines) == Success(false) <==>
      exists i :: 0 <= i < |lines| && !StatusIs(lines[i], Done) && ParseLine(lines[i]).Some?
                  && forall j :: 0 <= j < i ==> StatusIs(lines[j], Done)
    ensures FirstMalformed(lines) == |lines| ==> AllDone(lines).Success?
  {
    var k := FirstNotDone(lines);
    if AllDone(lines) == Success(true) {
    } else if exists i :: 0 <= i < |lines| && !StatusIs(lines[i], Done) && ParseLine(lines[i]).Some?
                  && forall j :: 0 <= j < i ==> StatusIs(lines[j], Done) {
      var i :| 0 <= i < |lines| && !StatusIs(lines[i], Done) && ParseLine(lines[i]).Some?
                  && forall j :: 0 <= j < i ==> StatusIs(lines[j], Done);
      assert k == i;
    }
  }

  /** The ledger `build_job_list` writes reads back as one `name,PENDING` job per file, in
      glob order, when the base names are plain file names. */
  lemma BuiltLedgerReadsBack(files: seq<string>)
    requires forall i :: 0 <= i < |files| ==> PlainName(Basename(files[i]))
    ensures Lines(Join(JobLines(files))) == JobLines(files)
    ensures forall i :: 0 <= i < |files| ==>
      ParseLine(Lines(Join(JobLines(files)))[i]) == Some(Entry(Basename(files[i]), Pending))
    ensures AllDone(JobLines(files)) == Success(|files| == 0)
  {
    var ls := JobLines(files);
    forall i | 0 <= i < |files|
      ensures IsLine(ls[i]) && ls[i][|ls[i]| - 1] == '\n'
      ensures ParseLine(ls[i]) == Some(Entry(Basename(files[i]), Pending))
    {
      ParseJobLine(Basename(files[i]), Pending);
    }
    LinesJoin(ls);
    if |files| > 0 {
      assert FirstNotDone(ls) == 0;
    }
  }

  /** A file whose name holds a comma gets a ledger line that never parses as `PENDING`:
      `split(",", 1)` cuts at the comma inside the name. Such a job is never claimed. */
  lemma CommaNameNeverPending(name: string)
    requires |name| > 0 && !IsSpace(name[0]) && '\n' !in name
    requires ',' in name
    ensures !StatusIs(JobLine(name, Pending), Pending)
    ensures !StatusIs(JobLine(name, Pending), Done)
  {
    var s := name + "," + Pending;
    assert JobLine(name, Pending) == s + ['\n'];
    assert s[|s| - 1] == 'G';
    StripTrailingSpace(s, '\n');
    var c := IndexOf(s, ',');
    IndexOfMeaning(s, ',');
    var p :| 0 <= p < |name| && name[p] == ',';
    assert s[p] == ',';
    assert c <= p;
    var status := s[c + 1..];
    assert status[|name| - c - 1] == s[|name|] == ',';
    assert ',' in status;
  }

  // ---------------------------------------------------------------- the job folder

  /** What `run()` observes after one pass of its loop. */
  datatype Step = Finished | Waiting | Processed(path: string)

  /** A job folder: the ledger file (absent, or its text) and the lock file (present or not). */
  class JobFolder {
    const folder: string
    var ledger: Option<string>
    var lockHeld: bool

    constructor (folder: string, ledger: Option<string>, lockHeld: bool)
      ensures this.folder == folder && this.ledger == ledger && this.lockHeld == lockHeld
    {
      this.folder := folder;
      this.ledger := ledger;
      this.lockHeld := lockHeld;
    }

    /** `build_job_list`: a no-op when the ledger exists, otherwise one `PENDING` line per file. */
    method BuildJobList(files: seq<string>)
      modifies this`ledger
      ensures old(ledger).Some? ==> ledger == old(ledger)
      ensures old(ledger).None? ==> ledger == Some(Join(JobLines(files)))
    {
      if ledger.Some? {
        return;
      }
      var text := "";
      var i := 0;
      while i < |files|
        invariant 0 <= i <= |files|
        invariant text == Join(JobLines(files)[..i])
      {
        assert JobLines(files)[..i + 1] == JobLines(files)[..i] + [JobLine(Basename(files[i]), Pending)];
        JoinAppend(JobLines(files)[..i], JobLine(Basename(files[i]), Pending));
        text := text + JobLine(Basename(files[i]), Pending);
        i := i + 1;
      }
      assert JobLines(files)[..i] == JobLines(files);
      ledger := Some(text);
    }

    /** `atomic_lock` in a folder no other worker touches: it succeeds at once when the
        lock file is absent and otherwise times out. */
    method Lock(timeout: real) returns (r: Result<(), LedgerError>)
      modifies this`lockHeld
      ensures r.Success? <==> !old(lockHeld)
      ensures r.Failure? ==> r.error == LockTimeout
      ensures lockHeld
    {
      var h := lockHeld;
      var held: nat -> bool := _ => h;
      var attempt := AtomicLock(timeout, held);
      if attempt.Failure? {
        assert held(0);
        return Failure(LockTimeout);
      }
      lockHeld := true;
      return Success(());
    }

    /** `claim_next_job`. What raises after the lock is taken leaves the lock file behind. */
    method ClaimNextJob(timeout: real) returns (r: Result<Option<string>, LedgerError>)
      modifies this`ledger, this`lockHeld
      ensures old(lockHeld) ==> r == Failure(LockTimeout) && ledger == old(ledger) && lockHeld
      ensures !old(lockHeld) && old(ledger).None? ==> r == Failure(NoLedger) && ledger == old(ledger) && lockHeld
      ensures !old(lockHeld) && old(ledger).Some? ==>
        match ClaimLines(Lines(old(ledger).value))
        case Failure(k) => r == Failure(MalformedLine(k)) && ledger == old(ledger) && lockHeld
        case Success(c) => r == Success(ClaimedPath(folder, c.claimed)) && ledger == Some(Join(c.lines)) && !lockHeld
    {
      var locked := Lock(timeout);
      if locked.Failure? {
        return Failure(LockTimeout);
      }
      if ledger.None? {
        return Failure(NoLedger);
      }
      var scanned := ClaimScan(Lines(ledger.value));
      if scanned.Failure? {
        return Failure(MalformedLine(scanned.error));
      }
      ledger := Some(Join(scanned.value.lines));
      lockHeld := false;
      return Success(ClaimedPath(folder, scanned.value.claimed));
    }

    /** `mark_job_done`. */
    method MarkJobDone(filename: string, timeout: real) returns (r: Result<(), LedgerError>)
      modifies this`ledger, this`lockHeld
      ensures old(lockHeld) ==> r == Failure(LockTimeout) && ledger == old(ledger) && lockHeld
      ensures !old(lockHeld) && old(ledger).None? ==> r == Failure(NoLedger) && ledger == old(ledger) && lockHeld
      ensures !old(lockHeld) && old(ledger).Some? ==>
        match MarkLines(Lines(old(ledger).value), filename)
        case Failure(k) => r == Failure(MalformedLine(k)) && ledger == old(ledger) && lockHeld
        case Success(m) => r == Success(()) && ledger == Some(Join(m)) && !lockHeld
    {
      var locked := Lock(timeout);
      if locked.Failure? {
        return Failure(LockTimeout);
      }
      if ledger.None? {
        return Failure(NoLedger);
      }
      var scanned := MarkScan(Lines(ledger.value), filename);
      if scanned.Failure? {
        return Failure(MalformedLine(scanned.error));
      }
      ledger := Some(Join(scanned.value));
      lockHeld := false;
      return Success(());
    }

    /** `check_all_done`: True when the ledger is absent. */
    method CheckAllDone() returns (r: Result<bool, LedgerError>)
      ensures r == CheckAllDoneSpec(ledger)
    {
      if ledger.None? {
        return Success(true);
      }
      var scanned := AllDoneScan(Lines(ledger.value));
      match scanned
      case Success(b) => return Success(b);
      case Failure(k) => return Failure(MalformedLine(k));
    }

    /** One pass of the `while not check_all_done(...)` loop of `run()` for a single worker.
        `process_geojson` catches every exception and only writes the job's output folder, so
        it leaves the ledger alone and `mark_job_done` follows every claim that returned a path.
        A lock file left behind by an earlier pass does not stop `check_all_done`, which takes
        no lock, but makes the claim time out. */
    method RunIteration(timeout: real) returns (r: Result<Step, LedgerError>)
      modifies this`ledger, this`lockHeld
      ensures r == Success(Finished) <==> CheckAllDoneSpec(old(ledger)) == Success(true)
      ensures r == Success(Finished) ==> ledger == old(ledger) && lockHeld == old(lockHeld)
      ensures old(lockHeld) && CheckAllDoneSpec(old(ledger)) == Success(false) ==>
        r == Failure(LockTimeout) && ledger == old(ledger) && lockHeld
      ensures r.Success? && !r.value.Finished? ==>
        && !old(lockHeld) && !lockHeld
        && old(ledger).Some? && ClaimLines(Lines(old(ledger).value)).Success?
      ensures r == Success(Waiting) ==>
        var c := ClaimLines(Lines(old(ledger).value)).value;
        && ClaimedPath(folder, c.claimed).None?
        && ledger == Some(Join(c.lines))
        && (c.claimed.None? ==> ledger == old(ledger))
      ensures r.Success? && r.value.Processed? ==>
        var c := ClaimLines(Lines(old(ledger).value)).value;
        && ClaimedPath(folder, c.claimed) == Some(r.value.path)
        && MarkLines(c.lines, r.value.path).Success?
        && ledger == Some(Join(MarkLines(c.lines, r.value.path).value))
      ensures r.Success? && !r.value.Finished? ==>
        ledger.Some? && PendingCount(ledger.value) <= PendingCount(old(ledger).value)
      ensures r.Success? && r.value.Processed? ==>
        PendingCount(ledger.value) < PendingCount(old(ledger).value)
    {
      var done := CheckAllDone();
      if done.Failure? {
        return Failure(done.error);
      }
      if done.value {
        return Success(Finished);
      }
      ghost var text0 := ledger.value;
      var claimed := ClaimNextJob(timeout);
      if claimed.Failure? {
        return Failure(claimed.error);
      }
      ghost var c := ClaimLines(Lines(text0)).value;
      ClaimRoundTrip(text0);
      if c.claimed.Some? {
        ClaimLowersPending(Lines(text0));
      }
      if claimed.value.None? {
        ClaimRewritesFirstPending(Lines(text0));
        if c.claimed.None? {
          JoinLines(text0);
        }
        return Success(Waiting);
      }
      var path := claimed.value.value;
      ghost var text1 := ledger.value;
      ClaimedLineInProgress(Lines(text0));
      var marked := MarkJobDone(path, timeout);
      if marked.Failure? {
        return Failure(marked.error);
      }
      MarkKeepsPendingDown(Lines(text1), path);
      MarkRoundTrip(text1, path);
      return Success(Processed(path));
    }
  }

  /** A mark on the ledger text leaves a text whose lines are the rewritten lines. */
  lemma MarkRoundTrip(text: string, filename: string)
    requires MarkLines(Lines(text), filename).Success?
    ensures Lines(Join(MarkLines(Lines(text), filename).value)) == MarkLines(Lines(text), filename).value
  {
    MarkRewritesMatching(Lines(text), filename);
    LinesJoin(MarkLines(Lines(text), filename).value);
  }
}
