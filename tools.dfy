/**
 * The repository's own tools (app/tools.py): `create_test_file`, which adds a
 * pytest file to the sandbox but never overwrites one, and `run_tests`, which
 * turns a pytest run into a report for the model.
 */
module Tools {
  import opened Options
  import opened Text

  const SandboxDir: string := "./my_project_sandbox"

  /**
   * `os.path.join(SANDBOX_DIR, filename)`. Every name that passes
   * `IsTestFileName` starts with "test_", so it is relative and joins by
   * plain concatenation.
   */
  function SandboxPath(filename: string): string {
    SandboxDir + "/" + filename
  }

  /** The name guard of `create_test_file`. */
  predicate IsTestFileName(filename: string) {
    StartsWith(filename, "test_") && EndsWith(filename, ".py")
  }

  /** What the file system does when the new file is opened and written. */
  datatype WriteResult =
    | Written(absolutePath: string)  // the file now exists; `os.path.abspath` of its path
    | WriteError(reason: string)     // `open` or `write` raised; `str(e)`

  /** The four ways `create_test_file` can end. */
  datatype CreateOutcome =
    | InvalidName(filename: string)
    | AlreadyExists(path: string)
    | Created(absolutePath: string)
    | WriteFailed(reason: string)

  /** The status text `create_test_file` returns to the model. */
  function CreateMessage(o: CreateOutcome): string {
    match o
    case InvalidName(f) => "Error: Filename '" + f + "' must start with 'test_' and end with '.py'."
    case AlreadyExists(p) => "Error: File '" + p + "' already exists. Please use edit_file to modify it."
    case Created(a) => "Successfully created test file at: " + a
    case WriteFailed(e) => "Error creating test file: " + e
  }

  /** The model can tell a failed creation from a successful one by the message alone. */
  lemma MessageFlagsErrors(o: CreateOutcome)
    ensures StartsWith(CreateMessage(o), "Error") <==> !o.Created?
  {
    var m := CreateMessage(o);
    if o.Created? {
      assert m[0] == 'S';
    } else {
      assert m[..5] == "Error";
    }
  }

  /**
   * `create_test_file` on a sandbox whose files are `files`: the outcome and
   * the files afterwards.
   */
  function Create(files: map<string, string>, filename: string, content: string, write: WriteResult)
    : (r: (CreateOutcome, map<string, string>))
    ensures !IsTestFileName(filename) ==> r == (InvalidName(filename), files)
    ensures IsTestFileName(filename) && SandboxPath(filename) in files
            ==> r == (AlreadyExists(SandboxPath(filename)), files)
    ensures r.0.Created? <==> IsTestFileName(filename) && SandboxPath(filename) !in files && write.Written?
    ensures r.0.Created? ==> r.0 == Created(write.absolutePath) && r.1 == files[SandboxPath(filename) := content]
    ensures r.0.WriteFailed? <==> IsTestFileName(filename) && SandboxPath(filename) !in files && write.WriteError?
    ensures r.0.WriteFailed? ==> r.0 == WriteFailed(write.reason)
    ensures !r.0.Created? ==> r.1 == files
    ensures forall p :: p in files ==> p in r.1 && r.1[p] == files[p]
  {
    if !IsTestFileName(filename) then (InvalidName(filename), files)
    else
      var path := SandboxPath(filename);
      if path in files then (AlreadyExists(path), files)
      else match write
        case Written(a) => (Created(a), files[path := content])
        case WriteError(e) => (WriteFailed(e), files)
  }

  /** One call of `create_test_file` as the model makes it, with what the file system answers. */
  datatype CreateCall = CreateCall(filename: string, content: string, write: WriteResult)

  /** The files after a series of `create_test_file` calls. */
  function CreateAll(files: map<string, string>, calls: seq<CreateCall>): map<string, string>
    decreases |calls|
  {
    if calls == [] then files
    else CreateAll(Create(files, calls[0].filename, calls[0].content, calls[0].write).1, calls[1..])
  }

  /**
   * However many files the agent creates, no existing file is ever changed,
   * and every path added is the sandbox directory, "/" and a name that passes
   * the guard. The guard looks at the whole name, so the path may name a
   * file in a sub-directory, or one outside the sandbox through "..".
   */
  lemma {:induction false} CreateAllNeverOverwrites(files: map<string, string>, calls: seq<CreateCall>)
    ensures forall p :: p in files ==> p in CreateAll(files, calls) && CreateAll(files, calls)[p] == files[p]
    ensures forall p :: p in CreateAll(files, calls) && p !in files
              ==> exists f :: IsTestFileName(f) && p == SandboxPath(f)
    decreases |calls|
  {
    if calls != [] {
      var c := calls[0];
      var next := Create(files, c.filename, c.content, c.write).1;
      CreateAllNeverOverwrites(next, calls[1..]);
      forall p | p in CreateAll(files, calls) && p !in files
        ensures exists f :: IsTestFileName(f) && p == SandboxPath(f)
      {
        if p in next {
          assert IsTestFileName(c.filename) && p == SandboxPath(c.filename);
        }
      }
    }
  }

  /** The sandbox directory, as far as the tools see it: a map from path to content. */
  class Sandbox {
    var files: map<string, string>

    constructor (initial: map<string, string>)
      ensures files == initial
    {
      files := initial;
    }

    /** `create_test_file(filename, content)`; `write` is the file system's answer. */
    method CreateTestFile(filename: string, content: string, write: WriteResult) returns (outcome: CreateOutcome)
      modifies this
      ensures (outcome, files) == Create(old(files), filename, content, write)
    {
      if !(StartsWith(filename, "test_") && EndsWith(filename, ".py")) {
        return InvalidName(filename);
      }
      var fullPath := SandboxPath(filename);
      if fullPath in files {
        return AlreadyExists(fullPath);
      }
      match write {
        case Written(a) =>
          files := files[fullPath := content];
          outcome := Created(a);
        case WriteError(e) =>
          outcome := WriteFailed(e);
      }
    }
  }

  /** `"".join(lines)`. */
  function Concat(lines: seq<string>): string {
    if lines == [] then "" else lines[0] + Concat(lines[1..])
  }

  lemma {:induction false} ConcatAppend(a: seq<string>, b: seq<string>)
    ensures Concat(a + b) == Concat(a) + Concat(b)
    decreases |a|
  {
    if a == [] {
      assert a + b == b;
    } else {
      assert (a + b)[1..] == a[1..] + b;
      ConcatAppend(a[1..], b);
    }
  }

  /** Every output line appears in the collected output, in order, right after the lines before it. */
  lemma ConcatKeepsLines(lines: seq<string>, k: nat)
    requires k < |lines|
    ensures Concat(lines[..k]) + lines[k] <= Concat(lines)
  {
    assert lines == lines[..k] + lines[k..];
    ConcatAppend(lines[..k], lines[k..]);
  }

  /** What running pytest in the sandbox yields. */
  datatype TestRun =
    | Completed(lines: seq<string>, returnCode: int)  // the merged stdout/stderr lines and the exit status
    | LaunchFailed(reason: string)                    // `subprocess.Popen` raised; `str(e)`

  const PassedHeader: string := "Tests Passed:\n"
  const FailedHeader: string := "Tests Failed:\n"
  const LaunchErrorHeader: string := "Error running tests: "

  /** `run_tests`: collects the output lines in order and prefixes the verdict. */
  method RunTests(run: TestRun) returns (report: string)
    ensures run.LaunchFailed? ==> report == LaunchErrorHeader + run.reason
    ensures run.Completed? ==>
      report == (if run.returnCode == 0 then PassedHeader else FailedHeader) + Concat(run.lines)
  {
    match run {
      case LaunchFailed(e) =>
        return LaunchErrorHeader + e;
      case Completed(lines, returnCode) =>
        var fullOutput := "";
        for i := 0 to |lines|
          invariant fullOutput == Concat(lines[..i])
        {
          ConcatAppend(lines[..i], [lines[i]]);
          assert lines[..i + 1] == lines[..i] + [lines[i]];
          fullOutput := fullOutput + lines[i];
        }
        assert lines[..|lines|] == lines;
        if returnCode == 0 {
          report := PassedHeader + fullOutput;
        } else {
          report := FailedHeader + fullOutput;
        }
    }
  }

  /** Reads a `run_tests` report back: whether the tests passed, and the collected output. */
  function ReadReport(report: string): Option<(bool, string)> {
    if PassedHeader <= report then Some((true, report[|PassedHeader|..]))
    else if FailedHeader <= report then Some((false, report[|FailedHeader|..]))
    else None
  }

  /**
   * The report of a completed run determines the verdict (exit code 0 or not)
   * and the whole output; a launch failure reads as neither verdict.
   */
  lemma ReportRoundTrip(lines: seq<string>, returnCode: int, reason: string)
    ensures ReadReport((if returnCode == 0 then PassedHeader else FailedHeader) + Concat(lines))
            == Some((returnCode == 0, Concat(lines)))
    ensures ReadReport(LaunchErrorHeader + reason) == None
  {
    var out := Concat(lines);
    if returnCode == 0 {
      assert (PassedHeader + out)[..|PassedHeader|] == PassedHeader;
    } else {
      var r := FailedHeader + out;
      assert r[..|FailedHeader|] == FailedHeader;
      assert r[6] != PassedHeader[6];
    }
    var e := LaunchErrorHeader + reason;
    assert e[0] != PassedHeader[0];
  }
}
