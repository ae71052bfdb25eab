/** Command-line options of the schema comparison: `--mode`, `--json-out`,
    `--md-out` (each either followed by its value or written `--flag=value`)
    and `--no-write`. */
module SchemaArgs {
  import opened Wrappers
  import opened Strings

  /** A missing value (`argv[idx + 1]` past the end) is `None`. */
  datatype Options = Options(mode: Option<string>, jsonOut: Option<string>, mdOut: Option<string>, noWrite: bool)

  datatype ArgError =
    | UnknownArgument(arg: string)
    | InvalidMode(mode: Option<string>)
    | MissingOutputs

  const DefaultOptions := Options(Some("report"), Some("reports/schema-comparison.json"),
                                  Some("reports/schema-comparison.md"), false)

  predicate ValidMode(m: Option<string>) { m == Some("report") || m == Some("strict") }

  /** `!value` for an optional string: absent or empty. */
  predicate Falsy(v: Option<string>) { v.None? || v.value == "" }

  function ArgAt(argv: seq<string>, i: nat): Option<string> {
    if i < |argv| then Some(argv[i]) else None
  }

  /** The tokens the parser accepts in flag position. */
  predicate Recognized(arg: string) {
    arg == "--mode" || StartsWith(arg, "--mode=")
    || arg == "--json-out" || StartsWith(arg, "--json-out=")
    || arg == "--md-out" || StartsWith(arg, "--md-out=")
    || arg == "--no-write"
  }

  /** The loop of `parseArgs`, from index `idx` with the options so far. */
  function Scan(argv: seq<string>, idx: nat, o: Options): (r: Result<Options, ArgError>)
    ensures r.Failure? ==> r.error.UnknownArgument? && r.error.arg in argv && !Recognized(r.error.arg)
    decreases |argv| - idx
  {
    if idx >= |argv| then Success(o)
    else
      var arg := argv[idx];
      if arg == "--mode" then Scan(argv, idx + 2, o.(mode := ArgAt(argv, idx + 1)))
      else if StartsWith(arg, "--mode=") then Scan(argv, idx + 1, o.(mode := Some(arg[7..])))
      else if arg == "--json-out" then Scan(argv, idx + 2, o.(jsonOut := ArgAt(argv, idx + 1)))
      else if StartsWith(arg, "--json-out=") then Scan(argv, idx + 1, o.(jsonOut := Some(arg[11..])))
      else if arg == "--md-out" then Scan(argv, idx + 2, o.(mdOut := ArgAt(argv, idx + 1)))
      else if StartsWith(arg, "--md-out=") then Scan(argv, idx + 1, o.(mdOut := Some(arg[9..])))
      else if arg == "--no-write" then Scan(argv, idx + 1, o.(noWrite := true))
      else Failure(UnknownArgument(arg))
  }

  /** `parseArgs(argv)`: scan, then validate the mode, then require both
      output paths unless `--no-write` was given. */
  function ParseArgs(argv: seq<string>): (r: Result<Options, ArgError>)
    ensures r.Success? <==> Scan(argv, 0, DefaultOptions).Success?
                            && ValidMode(Scan(argv, 0, DefaultOptions).value.mode)
                            && (Scan(argv, 0, DefaultOptions).value.noWrite
                                || (!Falsy(Scan(argv, 0, DefaultOptions).value.jsonOut)
                                    && !Falsy(Scan(argv, 0, DefaultOptions).value.mdOut)))
    ensures r.Success? ==> ValidMode(r.value.mode)
    ensures r.Success? && !r.value.noWrite ==> !Falsy(r.value.jsonOut) && !Falsy(r.value.mdOut)
  {
    match Scan(argv, 0, DefaultOptions)
    case Failure(e) => Failure(e)
    case Success(o) =>
      if !ValidMode(o.mode) then Failure(InvalidMode(o.mode))
      else if !o.noWrite && (Falsy(o.jsonOut) || Falsy(o.mdOut)) then Failure(MissingOutputs)
      else Success(o)
  }

  /** Scanning after a consumed prefix is scanning the rest on its own. */
  lemma {:induction false} ScanShift(p: seq<string>, rest: seq<string>, k: nat, o: Options)
    ensures Scan(p + rest, |p| + k, o) == Scan(rest, k, o)
    decreases |rest| - k
  {
    var argv := p + rest;
    if k < |rest| {
      assert argv[|p| + k] == rest[k];
      assert ArgAt(argv, |p| + k + 1) == ArgAt(rest, k + 1);
      var arg := rest[k];
      if arg == "--mode" {
        ScanShift(p, rest, k + 2, o.(mode := ArgAt(rest, k + 1)));
      } else if StartsWith(arg, "--mode=") {
        ScanShift(p, rest, k + 1, o.(mode := Some(arg[7..])));
      } else if arg == "--json-out" {
        ScanShift(p, rest, k + 2, o.(jsonOut := ArgAt(rest, k + 1)));
      } else if StartsWith(arg, "--json-out=") {
        ScanShift(p, rest, k + 1, o.(jsonOut := Some(arg[11..])));
      } else if arg == "--md-out" {
        ScanShift(p, rest, k + 2, o.(mdOut := ArgAt(rest, k + 1)));
      } else if StartsWith(arg, "--md-out=") {
        ScanShift(p, rest, k + 1, o.(mdOut := Some(arg[9..])));
      } else if arg == "--no-write" {
        ScanShift(p, rest, k + 1, o.(noWrite := true));
      }
    }
  }

  /** `--mode x` and `--mode=x` mean the same, whatever follows. */
  lemma ModeForms(x: string, rest: seq<string>)
    ensures ParseArgs(["--mode", x] + rest) == ParseArgs(["--mode=" + x] + rest)
  {
    var o := DefaultOptions.(mode := Some(x));
    assert ("--mode=" + x)[7..] == x;
    assert StartsWith("--mode=" + x, "--mode=");
    ScanShift(["--mode", x], rest, 0, o);
    ScanShift(["--mode=" + x], rest, 0, o);
  }

  /** `--json-out x` and `--json-out=x` mean the same, whatever follows. */
  lemma JsonOutForms(x: string, rest: seq<string>)
    ensures ParseArgs(["--json-out", x] + rest) == ParseArgs(["--json-out=" + x] + rest)
  {
    var o := DefaultOptions.(jsonOut := Some(x));
    assert ("--json-out=" + x)[11..] == x;
    assert StartsWith("--json-out=" + x, "--json-out=");
    assert ("--json-out=" + x)[2] == 'j';
    ScanShift(["--json-out", x], rest, 0, o);
    ScanShift(["--json-out=" + x], rest, 0, o);
  }

  /** `--md-out x` and `--md-out=x` mean the same, whatever follows. */
  lemma MdOutForms(x: string, rest: seq<string>)
    ensures ParseArgs(["--md-out", x] + rest) == ParseArgs(["--md-out=" + x] + rest)
  {
    var o := DefaultOptions.(mdOut := Some(x));
    assert ("--md-out=" + x)[9..] == x;
    assert StartsWith("--md-out=" + x, "--md-out=");
    var arg := "--md-out=" + x;
    assert arg[2] == 'm' && arg[3] == 'd';
    assert !StartsWith(arg, "--mode=") && !StartsWith(arg, "--json-out=");
    assert !StartsWith("--md-out", "--mode=") && !StartsWith("--md-out", "--json-out=");
    ScanShift(["--md-out", x], rest, 0, o);
    ScanShift(["--md-out=" + x], rest, 0, o);
  }

  /** A token the parser does not know, in flag position, is an error. */
  lemma UnknownArgumentRejected(arg: string, rest: seq<string>)
    requires !Recognized(arg)
    ensures ParseArgs([arg] + rest) == Failure(UnknownArgument(arg))
  {
  }

  /** No arguments: report mode, the default report paths. */
  lemma DefaultsAccepted()
    ensures ParseArgs([]) == Success(DefaultOptions)
  {
  }

  /** A mode outside report/strict is rejected. */
  lemma BadModeRejected(x: string)
    requires x != "report" && x != "strict"
    ensures ParseArgs(["--mode=" + x]) == Failure(InvalidMode(Some(x)))
  {
    var arg := "--mode=" + x;
    assert arg[7..] == x;
    assert arg[..7] == "--mode=";
    assert Scan([arg], 1, DefaultOptions.(mode := Some(x))) == Success(DefaultOptions.(mode := Some(x)));
  }

  /** `--mode` as the last token leaves the mode undefined, which is rejected. */
  lemma DanglingModeRejected()
    ensures ParseArgs(["--mode"]) == Failure(InvalidMode(None))
  {
  }

  /** An empty output path is an error unless nothing is written. */
  lemma EmptyJsonOutRejected()
    ensures ParseArgs(["--json-out="]) == Failure(MissingOutputs)
    ensures ParseArgs(["--json-out=", "--no-write"]).Success?
  {
    var o := DefaultOptions.(jsonOut := Some(""));
    EmptyJsonOutStep(["--json-out="]);
    EmptyJsonOutStep(["--json-out=", "--no-write"]);
    NoWriteStep(["--json-out=", "--no-write"], 1, o);
  }

  /** `--json-out=` with nothing after the sign sets an empty path. */
  lemma EmptyJsonOutStep(argv: seq<string>)
    requires |argv| >= 1 && argv[0] == "--json-out="
    ensures Scan(argv, 0, DefaultOptions) == Scan(argv, 1, DefaultOptions.(jsonOut := Some("")))
  {
    var arg := argv[0];
    assert |arg| == 11 && arg[2] == 'j';
    assert arg != "--mode" && arg != "--json-out";
    assert !StartsWith(arg, "--mode=") by { assert "--mode="[2] == 'm'; }
    assert StartsWith(arg, "--json-out=") by { assert arg[..11] == arg; }
    assert arg[11..] == "";
  }

  /** A trailing `--no-write` sets the flag and ends the scan. */
  lemma NoWriteStep(argv: seq<string>, idx: nat, o: Options)
    requires idx + 1 == |argv| && argv[idx] == "--no-write"
    ensures Scan(argv, idx, o) == Success(o.(noWrite := true))
  {
    var arg := argv[idx];
    assert |arg| == 10 && arg[2] == 'n';
    assert arg != "--mode" && arg != "--json-out" && arg != "--md-out";
    assert !StartsWith(arg, "--mode=") by { assert "--mode="[2] == 'm'; }
    assert !StartsWith(arg, "--md-out=") by { assert "--md-out="[2] == 'm'; }
    assert !StartsWith(arg, "--json-out=");
  }
}
