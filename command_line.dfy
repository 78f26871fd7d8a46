/** The command-line handling of `main`: the loop that walks `sys.argv`,
    overriding the default connection parameters, and the decision that
    follows it (print help and return, or open the tunnel and connect). */
module CommandLine {
  import opened Wrappers

  const DefaultDbName := "crv0425_registration"
  const DefaultUser := "token_dfac"
  /** The source hard-codes a real access token here; the model keeps a
      placeholder, since no property depends on the value. */
  const DefaultPassword := "<default password>"

  /** The keys of the `params` dictionary. */
  const ParamKeys: set<string> := {"dbname", "user", "password"}

  function Defaults(): map<string, string> {
    map["dbname" := DefaultDbName, "user" := DefaultUser, "password" := DefaultPassword]
  }

  predicate IsHelpFlag(arg: string) {
    arg == "-h" || arg == "-help"
  }

  /** The flags that take the next argument as their value. */
  predicate IsValueFlag(arg: string) {
    arg == "-dbname" || arg == "-user" || arg == "-password"
  }

  /** The state the loop leaves behind: the dictionary, the help flag, and the
      lines it wrote to standard error. */
  datatype Parsed = Parsed(params: map<string, string>, needHelp: bool, diagnostics: seq<string>)

  /** `argv[i:]`, which is empty when `i` is past the end. */
  function Suffix(argv: seq<string>, i: nat): seq<string> {
    if i <= |argv| then argv[i..] else []
  }

  /** What the loop does to the arguments still ahead of it, given the
      dictionary so far. */
  function Scan(args: seq<string>, params: map<string, string>): (r: Parsed)
    ensures |r.diagnostics| <= 1 && (r.diagnostics != [] ==> r.needHelp)
    ensures !r.needHelp ==> r.diagnostics == [] && Pairs(args)
    decreases |args|
  {
    if args == [] then Parsed(params, false, [])
    else if IsHelpFlag(args[0]) then Parsed(params, true, [])
    else if IsValueFlag(args[0]) then
      if |args| == 1 then Parsed(params, true, [])
      else
        PairsCons(args);
        Scan(args[2..], params[args[0][1..] := args[1]])
    else Parsed(params, true, ["Unrecognized option: " + args[0]])
  }

  /** The whole parse: the program name `argv[0]` is skipped. */
  function Parse(argv: seq<string>): (r: Parsed)
    ensures r.params.Keys == ParamKeys
  {
    ScanKeys(Suffix(argv, 1), Defaults());
    Scan(Suffix(argv, 1), Defaults())
  }

  /** The argument loop of `main`, over the whole of `sys.argv`. */
  method ParseArgs(argv: seq<string>) returns (params: map<string, string>, needHelp: bool, diagnostics: seq<string>)
    ensures Parsed(params, needHelp, diagnostics) == Parse(argv)
  {
    params := Defaults();
    needHelp := false;
    diagnostics := [];
    var i := 1;
    while i < |argv| && !needHelp
      invariant 1 <= i
      invariant !needHelp ==> diagnostics == [] && Scan(Suffix(argv, i), params) == Parse(argv)
      invariant needHelp ==> Parsed(params, true, diagnostics) == Parse(argv)
      decreases |argv| - i
    {
      var arg := argv[i];
      var isLast := i + 1 == |argv|;
      assert Suffix(argv, i)[0] == arg;
      if IsHelpFlag(arg) {
        needHelp := true;
        break;
      } else if IsValueFlag(arg) {
        if isLast {
          needHelp := true;
        } else {
          assert Suffix(argv, i)[2..] == Suffix(argv, i + 2);
          params := params[arg[1..] := argv[i + 1]];
          i := i + 1;
        }
      } else {
        diagnostics := diagnostics + ["Unrecognized option: " + arg];
        needHelp := true;
      }
      i := i + 1;
    }
    assert !needHelp ==> Suffix(argv, i) == [];
  }

  // ---------------------------------------------------------------------
  // What the loop accepts: flag/value pairs

  /** An argument list the loop gets through without asking for help: a run
      of value flags, each followed by its value. */
  ghost predicate Pairs(args: seq<string>) {
    |args| % 2 == 0 && forall k :: 0 <= k < |args| && k % 2 == 0 ==> IsValueFlag(args[k])
  }

  /** The value the last `-key` pair of `args` gives, scanning from the end. */
  function LastGiven(args: seq<string>, key: string): Option<string>
    decreases |args|
  {
    if |args| < 2 then None
    else if args[|args| - 2] == "-" + key then Some(args[|args| - 1])
    else LastGiven(args[..|args| - 2], key)
  }

  /** The connection setting `key` ends up with: the last value given for it on
      the command line, or its default. */
  function Setting(argv: seq<string>, key: string): string
    requires key in ParamKeys
  {
    LastGiven(Suffix(argv, 1), key).GetOr(Defaults()[key])
  }

  /** A value flag and its value in front of flag/value pairs are pairs. */
  lemma PairsCons(args: seq<string>)
    requires |args| >= 2 && IsValueFlag(args[0])
    ensures Pairs(args[2..]) ==> Pairs(args)
  {
    if Pairs(args[2..]) {
      forall k | 2 <= k < |args| && k % 2 == 0
        ensures IsValueFlag(args[k])
      {
        assert args[k] == args[2..][k - 2];
      }
    }
  }

  lemma PairsTail(args: seq<string>)
    requires Pairs(args) && |args| >= 2
    ensures Pairs(args[2..]) && Pairs(args[..|args| - 2]) && IsValueFlag(args[0])
    ensures IsValueFlag(args[|args| - 2])
  {
  }

  /** A flag/value prefix is consumed pair by pair, and the scan then carries
      on with the dictionary it produced. */
  lemma {:induction false} ScanSplit(pre: seq<string>, post: seq<string>, params: map<string, string>)
    requires Pairs(pre)
    ensures !Scan(pre, params).needHelp && Scan(pre, params).diagnostics == []
    ensures Scan(pre + post, params) == Scan(post, Scan(pre, params).params)
    decreases |pre|
  {
    if pre == [] {
      assert pre + post == post;
    } else {
      PairsTail(pre);
      assert (pre + post)[0] == pre[0] && (pre + post)[1] == pre[1];
      assert (pre + post)[2..] == pre[2..] + post;
      ScanSplit(pre[2..], post, params[pre[0][1..] := pre[1]]);
    }
  }

  /** The loop asks for help exactly when the arguments are not flag/value
      pairs; only an unrecognised option writes to standard error, and then
      one line. */
  lemma {:induction false} ScanNeedsHelp(args: seq<string>, params: map<string, string>)
    ensures Scan(args, params).needHelp <==> !Pairs(args)
    ensures |Scan(args, params).diagnostics| <= 1
    ensures Scan(args, params).diagnostics != [] ==>
              exists k :: 0 <= k < |args| && Scan(args, params).diagnostics == ["Unrecognized option: " + args[k]]
                          && !IsHelpFlag(args[k]) && !IsValueFlag(args[k])
    decreases |args|
  {
    if args != [] && IsValueFlag(args[0]) && |args| > 1 {
      var rest := args[2..];
      ScanNeedsHelp(rest, params[args[0][1..] := args[1]]);
      if Pairs(rest) {
        assert Pairs(args) by {
          forall k | 0 <= k < |args| && k % 2 == 0 ensures IsValueFlag(args[k]) {
            if k >= 2 { assert args[k] == rest[k - 2]; }
          }
        }
      } else {
        if Pairs(args) { PairsTail(args); }
      }
      var d := Scan(args, params).diagnostics;
      if d != [] {
        var k :| 0 <= k < |rest| && d == ["Unrecognized option: " + rest[k]]
                 && !IsHelpFlag(rest[k]) && !IsValueFlag(rest[k]);
        assert rest[k] == args[k + 2];
      }
    } else if args != [] {
      assert !Pairs(args);
    }
  }

  /** A help flag met where an option is expected ends the scan: nothing after
      it is looked at, and the dictionary keeps the values set before it. */
  lemma HelpStopsScan(pre: seq<string>, h: string, post: seq<string>, params: map<string, string>)
    requires Pairs(pre) && IsHelpFlag(h)
    ensures Scan(pre + [h] + post, params) == Parsed(Scan(pre, params).params, true, [])
  {
    assert pre + [h] + post == pre + ([h] + post);
    ScanSplit(pre, [h] + post, params);
  }

  /** An unrecognised option ends the scan with one message naming it. */
  lemma UnrecognizedStopsScan(pre: seq<string>, arg: string, post: seq<string>, params: map<string, string>)
    requires Pairs(pre) && !IsHelpFlag(arg) && !IsValueFlag(arg)
    ensures Scan(pre + [arg] + post, params) == Parsed(Scan(pre, params).params, true, ["Unrecognized option: " + arg])
  {
    assert pre + [arg] + post == pre + ([arg] + post);
    ScanSplit(pre, [arg] + post, params);
  }

  /** A value flag in last position asks for help and sets nothing. */
  lemma MissingValueNeedsHelp(pre: seq<string>, flag: string, params: map<string, string>)
    requires Pairs(pre) && IsValueFlag(flag)
    ensures Scan(pre + [flag], params) == Parsed(Scan(pre, params).params, true, [])
  {
    ScanSplit(pre, [flag], params);
  }

  /** Wherever a value flag stands in option position, the argument after it
      is its value whatever it looks like, and the scan resumes after it:
      `-user -h` sets the user to "-h". */
  lemma ValueIsNeverAnOption(pre: seq<string>, flag: string, value: string, rest: seq<string>, params: map<string, string>)
    requires Pairs(pre) && IsValueFlag(flag)
    ensures Scan(pre + [flag, value] + rest, params) == Scan(rest, Scan(pre, params).params[flag[1..] := value])
  {
    assert pre + [flag, value] + rest == pre + ([flag, value] + rest);
    ScanSplit(pre, [flag, value] + rest, params);
    assert ([flag, value] + rest)[2..] == rest;
  }

  lemma FlagKey(flag: string)
    requires IsValueFlag(flag)
    ensures flag[1..] in ParamKeys
    ensures forall key :: flag[1..] == key <==> flag == "-" + key
  {
  }

  /** Whatever the arguments, the dictionary holds exactly the three keys. */
  lemma {:induction false} ScanKeys(args: seq<string>, params: map<string, string>)
    requires params.Keys == ParamKeys
    ensures Scan(args, params).params.Keys == ParamKeys
    decreases |args|
  {
    if args != [] && IsValueFlag(args[0]) && |args| > 1 {
      FlagKey(args[0]);
      ScanKeys(args[2..], params[args[0][1..] := args[1]]);
    }
  }

  /** On flag/value pairs each key ends with the last value given for it, and a
      key never given keeps the value it had. */
  lemma {:induction false} ScanLastValueWins(args: seq<string>, params: map<string, string>, key: string)
    requires Pairs(args) && key in params
    ensures key in Scan(args, params).params
    ensures Scan(args, params).params[key] == LastGiven(args, key).GetOr(params[key])
    decreases |args|
  {
    if |args| >= 2 {
      var n := |args|;
      var pre, flag, value := args[..n - 2], args[n - 2], args[n - 1];
      PairsTail(args);
      assert args == pre + [flag, value];
      ScanSplit(pre, [flag, value], params);
      ScanLastValueWins(pre, params, key);
      FlagKey(flag);
      assert [flag, value][2..] == [];
    }
  }

  /** The three pair-wise facts about `Parse`: it asks for help exactly when
      the arguments after the program name are not flag/value pairs, the
      dictionary always has the three keys, and each holds its `Setting`. */
  lemma ParseSettings(argv: seq<string>)
    ensures Parse(argv).needHelp <==> !Pairs(Suffix(argv, 1))
    ensures Parse(argv).params.Keys == ParamKeys
    ensures !Parse(argv).needHelp ==>
              Parse(argv).diagnostics == [] &&
              forall key :: key in ParamKeys ==> Parse(argv).params[key] == Setting(argv, key)
  {
    ScanNeedsHelp(Suffix(argv, 1), Defaults());
    ScanKeys(Suffix(argv, 1), Defaults());
    if Pairs(Suffix(argv, 1)) {
      ScanSplit(Suffix(argv, 1), [], Defaults());
      forall key | key in ParamKeys ensures Parse(argv).params[key] == Setting(argv, key) {
        ScanLastValueWins(Suffix(argv, 1), Defaults(), key);
      }
    }
  }

  /** A concrete run: `-user -h` connects as user "-h". */
  lemma UserNamedLikeHelpFlag()
    ensures Parse(["app", "-user", "-h"]) == Parsed(Defaults()["user" := "-h"], false, [])
  {
  }

  // ---------------------------------------------------------------------
  // What main does after the loop

  /** `main` either prints the help text and returns, or opens the tunnel and
      connects to `localhost` on the tunnel's forwarded port. */
  datatype Startup =
    | ShowHelp
    | Connect(host: string, port: int, dbName: string, user: string, password: string)

  /** `main` up to the connection: the forwarded port stands for what the
      tunnel reports. */
  method Launch(argv: seq<string>, forwardedPort: int) returns (startup: Startup, diagnostics: seq<string>)
    ensures startup == ShowHelp <==> !Pairs(Suffix(argv, 1))
    ensures startup.Connect? ==>
              startup == Connect("localhost", forwardedPort, Setting(argv, "dbname"), Setting(argv, "user"), Setting(argv, "password"))
    ensures diagnostics == Parse(argv).diagnostics
    ensures |diagnostics| <= 1
    ensures startup.Connect? ==> diagnostics == []
  {
    var params, needHelp;
    params, needHelp, diagnostics := ParseArgs(argv);
    ParseSettings(argv);
    ScanNeedsHelp(Suffix(argv, 1), Defaults());
    if needHelp {
      startup := ShowHelp;
      return;
    }
    startup := Connect("localhost", forwardedPort, params["dbname"], params["user"], params["password"]);
  }
}
