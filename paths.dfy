/** The MIB search path options of the `generate` command (`-M`): each one
    appends, prepends or sets a search path after expanding a leading
    `~` or `~user` to that user's home directory. The user database and
    `filepath.Join` are parameters. */
module Paths {
  import opened Wrappers
  import opened Strings

  /** What `expandPath` may ask of the system: the path separator, the
      current user's home directory, the home directory of a named user
      (None when the lookup fails) and `filepath.Join`. */
  datatype Host = Host(
    separator: char,
    currentHome: Option<string>,
    homeOf: string -> Option<string>,
    join: (string, string) -> string)

  /** The home directory `~name` stands for: the current user's for an
      empty name. */
  function HomeFor(host: Host, userName: string): Option<string>
  {
    if userName == "" then host.currentHome else host.homeOf(userName)
  }

  /** `expandPath`. */
  function ExpandPath(path: string, host: Host): string
  {
    var (firstPart, rest) := SplitFirst(path, host.separator);
    if firstPart == "" || firstPart[0] != '~' then path
    else
      match HomeFor(host, firstPart[1..])
      case None => path
      case Some(home) =>
        match rest
        case None => home
        case Some(tail) => host.join(home, tail)
  }

  /** A path that does not start with `~` is left as it is. */
  lemma ExpandPlain(path: string, host: Host)
    requires path == [] || path[0] != '~'
    ensures ExpandPath(path, host) == path
  {
    var (firstPart, _) := SplitFirst(path, host.separator);
    if firstPart != "" {
      assert path == firstPart + (path[|firstPart|..]);
      assert path[0] == firstPart[0];
    }
  }

  /** `~name` alone is the home directory of that user. */
  lemma ExpandHome(userName: string, host: Host, home: string)
    requires host.separator !in userName && host.separator != '~'
    requires HomeFor(host, userName) == Some(home)
    ensures ExpandPath("~" + userName, host) == home
  {
    var path := "~" + userName;
    assert host.separator !in path by {
      assert forall i :: 0 <= i < |path| ==> path[i] == '~' || path[i] in userName;
    }
    assert SplitFirst(path, host.separator).1.None?;
    assert path[1..] == userName;
  }

  /** `~name/rest` is `rest` joined under that user's home directory. */
  lemma ExpandUnder(userName: string, rest: string, host: Host, home: string)
    requires host.separator !in userName && host.separator != '~'
    requires HomeFor(host, userName) == Some(home)
    ensures ExpandPath("~" + userName + [host.separator] + rest, host) == host.join(home, rest)
  {
    var first := "~" + userName;
    var path := first + [host.separator] + rest;
    assert host.separator !in first by {
      assert forall i :: 0 <= i < |first| ==> first[i] == '~' || first[i] in userName;
    }
    SplitFirstAt(first, rest, host.separator);
    assert first[1..] == userName;
  }

  /** A user whose home directory cannot be found leaves the path as it is. */
  lemma ExpandUnknownUser(path: string, host: Host)
    requires var firstPart := SplitFirst(path, host.separator).0;
      firstPart != "" && firstPart[0] == '~' && HomeFor(host, firstPart[1..]).None?
    ensures ExpandPath(path, host) == path
  {
  }

  // -------------------------------------------------------- path options

  /** The three search path updates. */
  datatype PathAction = AppendPath(path: string) | PrependPath(path: string) | SetPath(path: string)

  /** One `-M` option: empty ones are skipped, `+` appends and `-`
      prepends the expanded remainder, anything else sets the expanded
      option as the whole search path. */
  function ClassifyPath(option: string, host: Host): Option<PathAction>
  {
    if option == "" then None
    else if option[0] == '+' then Some(AppendPath(ExpandPath(option[1..], host)))
    else if option[0] == '-' then Some(PrependPath(ExpandPath(option[1..], host)))
    else Some(SetPath(ExpandPath(option, host)))
  }

  /** The update one option makes, if any, as a sequence. */
  function ActionsOf(c: Option<PathAction>): seq<PathAction>
  {
    match c
    case None => []
    case Some(a) => [a]
  }

  /** The updates the options make, in order. */
  function PathActions(options: seq<string>, host: Host): seq<PathAction>
  {
    if options == [] then []
    else ActionsOf(ClassifyPath(options[0], host)) + PathActions(options[1..], host)
  }

  /** What option `i` contributes, ahead of the options after it. */
  lemma PathActionsStep(options: seq<string>, host: Host, i: nat)
    requires i < |options|
    ensures PathActions(options[i..], host)
      == ActionsOf(ClassifyPath(options[i], host)) + PathActions(options[i + 1..], host)
  {
    assert options[i..][0] == options[i] && options[i..][1..] == options[i + 1..];
  }

  /** The loop over the `-M` options. */
  method ConfigurePaths(options: seq<string>, host: Host) returns (actions: seq<PathAction>)
    ensures actions == PathActions(options, host)
  {
    actions := [];
    for i := 0 to |options|
      invariant actions + PathActions(options[i..], host) == PathActions(options, host)
    {
      PathActionsStep(options, host, i);
      var path := options[i];
      if path == "" {
        continue;
      }
      var action;
      if path[0] == '+' {
        var expandedPath := ExpandPath(path[1..], host);
        action := AppendPath(expandedPath);
      } else if path[0] == '-' {
        var expandedPath := ExpandPath(path[1..], host);
        action := PrependPath(expandedPath);
      } else {
        var expandedPath := ExpandPath(path, host);
        action := SetPath(expandedPath);
      }
      assert ClassifyPath(path, host) == Some(action);
      Regroup(actions, [action], PathActions(options[i + 1..], host));
      actions := actions + [action];
    }
    assert options[|options|..] == [];
  }

  function NonEmptyCount(options: seq<string>): nat
  {
    if options == [] then 0 else (if options[0] == "" then 0 else 1) + NonEmptyCount(options[1..])
  }

  /** Every non-empty option makes exactly one update; the empty ones none. */
  lemma {:induction false} OneActionPerOption(options: seq<string>, host: Host)
    ensures |PathActions(options, host)| == NonEmptyCount(options)
  {
    if options != [] {
      OneActionPerOption(options[1..], host);
    }
  }

  /** A non-empty option makes the update its first character selects,
      on the expanded rest of the option (or the whole option for a set). */
  lemma ClassifyByFirstChar(option: string, host: Host)
    requires option != ""
    ensures ClassifyPath(option, host).Some?
    ensures var a := ClassifyPath(option, host).value;
      && (option[0] == '+' <==> a.AppendPath?)
      && (option[0] == '-' <==> a.PrependPath?)
      && (a.SetPath? ==> a.path == ExpandPath(option, host))
      && (!a.SetPath? ==> a.path == ExpandPath(option[1..], host))
  {
  }

  /** Four options make the updates of each, in order. */
  lemma PathActionsOfFour(options: seq<string>, host: Host)
    requires |options| == 4
    ensures PathActions(options, host)
      == ActionsOf(ClassifyPath(options[0], host)) + ActionsOf(ClassifyPath(options[1], host))
         + ActionsOf(ClassifyPath(options[2], host)) + ActionsOf(ClassifyPath(options[3], host))
  {
    PathActionsStep(options, host, 3);
    assert options[4..] == [];
    PathActionsStep(options, host, 2);
    PathActionsStep(options, host, 1);
    PathActionsStep(options, host, 0);
    assert options[0..] == options;
  }

  /** `-M +/usr/share/mibs,,-~/mibs,/opt/mibs` appends the first path,
      skips the empty option, prepends `mibs` under the current user's home
      and sets the last path. */
  lemma PathOptionsExample(host: Host, home: string)
    requires host.separator == '/' && host.currentHome == Some(home)
    ensures PathActions(["+/usr/share/mibs", "", "-~/mibs", "/opt/mibs"], host)
      == [AppendPath("/usr/share/mibs"), PrependPath(host.join(home, "mibs")), SetPath("/opt/mibs")]
  {
    var options := ["+/usr/share/mibs", "", "-~/mibs", "/opt/mibs"];
    var a, b, c := AppendPath("/usr/share/mibs"), PrependPath(host.join(home, "mibs")), SetPath("/opt/mibs");
    AppendExample(host);
    PrependExample(host, home);
    SetExample(host);
    PathActionsOfFour(options, host);
    assert PathActions(options, host) == [a] + [] + [b] + [c];
  }

  lemma AppendExample(host: Host)
    requires host.separator == '/'
    ensures ClassifyPath("+/usr/share/mibs", host) == Some(AppendPath("/usr/share/mibs"))
  {
    ExpandPlain("/usr/share/mibs", host);
    assert "+/usr/share/mibs"[1..] == "/usr/share/mibs";
  }

  lemma PrependExample(host: Host, home: string)
    requires host.separator == '/' && host.currentHome == Some(home)
    ensures ClassifyPath("-~/mibs", host) == Some(PrependPath(host.join(home, "mibs")))
  {
    ExpandUnder("", "mibs", host, home);
    assert "~" + "" + ['/'] + "mibs" == "~/mibs";
    assert "-~/mibs"[1..] == "~/mibs";
  }

  lemma SetExample(host: Host)
    requires host.separator == '/'
    ensures ClassifyPath("/opt/mibs", host) == Some(SetPath("/opt/mibs"))
  {
    ExpandPlain("/opt/mibs", host);
  }
}
