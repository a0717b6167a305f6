/** Command-line parsing (`ProgramArguments` in
    include/benchmark/detail/program_arguments.h): `argv[0]` is the module
    path, every later non-empty argument is kept in order with one leading
    `-` or `--` removed, and lookups search the kept arguments. The object
    never changes after construction, so it is a value here, built by the
    constructor's loop. */
module Arguments {
  import opened Numeric

  /** One leading `--` or `-` removed. */
  function Strip(arg: string): (r: string)
    ensures |arg| - 2 <= |r| <= |arg| && r == arg[|arg| - |r|..]
    ensures forall i :: 0 <= i < |arg| - |r| ==> arg[i] == '-'
    ensures |arg| - |r| < 2 && r != [] ==> r[0] != '-'
  {
    if |arg| > 0 && arg[0] == '-' then
      if |arg| > 1 && arg[1] == '-' then arg[2..] else arg[1..]
    else arg
  }

  /** The arguments kept from `raw`: empty ones are skipped (before
      stripping, so a lone `-` is kept as an empty argument), the others
      stripped. */
  function Kept(raw: seq<string>): seq<string>
  {
    if raw == [] then []
    else Kept(raw[..|raw| - 1]) + (if raw[|raw| - 1] == "" then [] else [Strip(raw[|raw| - 1])])
  }

  datatype ProgramArguments = ProgramArguments(args: seq<string>, modulePath: string)
  {
    /** `contains(name, alt)`: some argument equals the name, or the
        alternative when one is given. */
    function Contains(name: string, alt: Option<string>): (b: bool)
      ensures b <==> exists i :: 0 <= i < |args| && Matches(args[i], name, alt)
    {
      FirstMatch(args, name, alt) < |args|
    }

    /** `after(name, alt)`: the argument right after the first match; the
        empty string when nothing matches or the first match is the last
        argument. Later matches are never looked at. */
    function After(name: string, alt: Option<string>): (r: string)
      ensures (forall i :: 0 <= i < |args| ==> !Matches(args[i], name, alt)) ==> r == ""
      ensures forall i ::
        (0 <= i < |args| && Matches(args[i], name, alt) &&
         (forall j :: 0 <= j < i ==> !Matches(args[j], name, alt))) ==>
        r == (if i + 1 < |args| then args[i + 1] else "")
    {
      var i := FirstMatch(args, name, alt);
      if i + 1 < |args| then args[i + 1] else ""
    }

    /** `count()`: the number of kept arguments. */
    function Count(): nat
    {
      |args|
    }

    /** `hasAny()`: whether any argument was kept. */
    function HasAny(): (b: bool)
      ensures b <==> Count() > 0
    {
      args != []
    }

    /** `operator[]`: only an index below the count is valid. */
    function At(ind: nat): (a: string)
      requires ind < Count()
      ensures a in args
    {
      args[ind]
    }
  }

  /** An argument matches the name, or the alternative when one is given. */
  predicate Matches(arg: string, name: string, alt: Option<string>)
  {
    arg == name || (alt.Some? && arg == alt.value)
  }

  /** The index of the first match, or the length when there is none. */
  function FirstMatch(s: seq<string>, name: string, alt: Option<string>): (i: nat)
    ensures i <= |s|
    ensures forall j :: 0 <= j < i ==> !Matches(s[j], name, alt)
    ensures i < |s| ==> Matches(s[i], name, alt)
  {
    if s == [] then 0
    else if Matches(s[0], name, alt) then 0
    else 1 + FirstMatch(s[1..], name, alt)
  }

  /** What the constructor builds: nothing when `argc` is below one,
      otherwise `argv[0]` as the module path and the kept arguments of
      `argv[1..argc]`. */
  function Parsed(argc: int, argv: seq<string>): ProgramArguments
    requires argc <= |argv|
  {
    if argc < 1 then ProgramArguments([], "") else ProgramArguments(Kept(argv[1..argc]), argv[0])
  }

  /** The constructor's loop. */
  method Parse(argc: int, argv: seq<string>) returns (pa: ProgramArguments)
    requires argc <= |argv|
    ensures pa == Parsed(argc, argv)
  {
    if argc < 1 {
      return ProgramArguments([], "");
    }
    var modulePath := argv[0];
    var args := [];
    for i := 1 to argc
      invariant args == Kept(argv[1..i])
    {
      assert argv[1..i + 1][..i - 1] == argv[1..i];
      var arg := argv[i];
      if arg == "" {
        continue;
      }
      if arg[0] == '-' {
        if |arg| > 1 && arg[1] == '-' {
          arg := arg[2..];
        } else {
          arg := arg[1..];
        }
      }
      args := args + [arg];
    }
    pa := ProgramArguments(args, modulePath);
  }

  /** Keeping works argument by argument, so the kept arguments come in
      the order of `argv`. */
  lemma {:induction false} KeptAppend(a: seq<string>, b: seq<string>)
    ensures Kept(a + b) == Kept(a) + Kept(b)
    decreases |b|
  {
    if b == [] {
      assert a + b == a;
    } else {
      var b' := b[..|b| - 1];
      assert (a + b)[..|a + b| - 1] == a + b';
      KeptAppend(a, b');
    }
  }

  /** Nothing is invented and nothing non-empty is lost: the kept arguments
      are exactly the stripped non-empty ones. */
  lemma {:induction false} KeptExactly(raw: seq<string>)
    ensures |Kept(raw)| <= |raw|
    ensures forall x :: x in Kept(raw) <==> exists a :: a in raw && a != "" && x == Strip(a)
  {
    if raw != [] {
      var p, a := raw[..|raw| - 1], raw[|raw| - 1];
      KeptExactly(p);
      assert raw == p + [a];
      forall x
        ensures x in Kept(raw) <==> exists y :: y in raw && y != "" && x == Strip(y)
      {
        if x in Kept(p) {
          var y :| y in p && y != "" && x == Strip(y);
          assert y in raw;
        }
        if exists y :: y in raw && y != "" && x == Strip(y) {
          var y :| y in raw && y != "" && x == Strip(y);
          if y != a {
            assert y in p;
          }
        }
      }
    }
  }

  /** Without empty arguments every argument is kept, stripped, in its
      place. */
  lemma {:induction false} KeptAllNonEmpty(raw: seq<string>)
    requires forall i :: 0 <= i < |raw| ==> raw[i] != ""
    ensures |Kept(raw)| == |raw|
    ensures forall i :: 0 <= i < |raw| ==> Kept(raw)[i] == Strip(raw[i])
  {
    if raw != [] {
      KeptAllNonEmpty(raw[..|raw| - 1]);
    }
  }

  /** What the constructor builds: with `argc` below one nothing at all;
      otherwise `argv[0]` as the module path, never processed as an
      argument, and the arguments, which are at most `argc - 1` and depend on `argv[1..argc]` alone. */
  lemma ParsedShape(argc: int, argv: seq<string>, argv': seq<string>)
    requires argc <= |argv| && argc <= |argv'|
    ensures argc < 1 ==> Parsed(argc, argv).Count() == 0 && Parsed(argc, argv).modulePath == ""
    ensures argc >= 1 ==> Parsed(argc, argv).modulePath == argv[0] && Parsed(argc, argv).Count() <= argc - 1
    ensures argc >= 1 && argv[1..argc] == argv'[1..argc] ==> Parsed(argc, argv).args == Parsed(argc, argv').args
  {
    if argc >= 1 {
      KeptExactly(argv[1..argc]);
    }
  }

  /** How stripping treats the corner cases. */
  lemma StripCorners()
    ensures Strip("--output") == "output" && Strip("-verbose") == "verbose"
    ensures Strip("---x") == "-x" && Strip("-") == "" && Strip("x-") == "x-"
  {
  }
}
