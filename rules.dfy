/**
 * The blacklist rule table and the matcher that decides whether a newly
 * started process is one of the blacklisted applications.
 */
module Rules {
  import opened Wrappers
  import opened Text

  /**
   * One blacklist entry: a display name, the executable names it watches
   * for, and, when the entry has an `args` key, the strings one of which
   * must appear in the process's command line.
   */
  datatype Rule = Rule(name: string, binaries: seq<string>, args: Option<seq<string>>)

  /**
   * What the monitor knows of a process. `name` is `None` when asking the
   * operating system for the name fails because the process has already
   * exited; `user` is `None` when the owner cannot be read.
   */
  datatype Process = Process(pid: int, name: Option<string>, user: Option<string>, cmdline: seq<string>)

  /** The configured table, in the order the matcher scans it. */
  const Blacklist: seq<Rule> := [
    Rule("Test App", ["kdialog"], Some(["Blacklist Test App"])),
    Rule("Geometry Dash", ["GeometryDash.ex", "GeometryDash.exe", "Geometry Dash.app"], None),
    Rule("Growtopia", ["Growtopia.exe"], None),
    Rule("Cubic Castles", ["Cubic.exe"], None),
    Rule("All The Mods 9", ["java", "javaw", "java.exe", "javaw.exe"], Some(["All The Mods 9", "ATM9"])),
    Rule("EA SPORTS™ FIFA 23", ["FIFA23.exe", "FIFA23_Trial.exe"], None),
    Rule("EA SPORTS FC™ 24", ["FC24.exe", "FC24_Trial.exe"], None)
  ]

  /**
   * Index of the first rule, in table order, whose binaries contain `exe`;
   * this is what `next(generator, None)` over the table returns.
   */
  function FirstBinaryMatch(exe: string, rules: seq<Rule>): (k: Option<nat>)
    ensures k.Some? ==> k.value < |rules| && exe in rules[k.value].binaries
    ensures k.Some? ==> forall j :: 0 <= j < k.value ==> exe !in rules[j].binaries
    ensures k.None? ==> forall j :: 0 <= j < |rules| ==> exe !in rules[j].binaries
  {
    if rules == [] then None
    else if exe in rules[0].binaries then Some(0)
    else match FirstBinaryMatch(exe, rules[1..])
      case None => None
      case Some(k) => Some(k + 1)
  }

  /**
   * The regular expression `(?=(a1|...|an))` matches at the start of `s`:
   * some alternative is a prefix of `s`. The alternatives are taken
   * literally. With no alternatives the pattern is `(?=())`, which matches
   * everywhere.
   */
  predicate AlternationMatchesAt(alternatives: seq<string>, s: string)
  {
    |alternatives| == 0 || exists a :: a in alternatives && a <= s
  }

  /**
   * The positions, from `i` on, that `re.findall` reports for the
   * zero-width lookahead pattern over `line`: one per position, including
   * the end of the string, at which the alternation matches.
   */
  function LookaheadPositions(alternatives: seq<string>, line: string, i: nat): seq<nat>
    requires i <= |line| + 1
    decreases |line| + 1 - i
  {
    if i > |line| then []
    else (if AlternationMatchesAt(alternatives, line[i..]) then [i] else [])
         + LookaheadPositions(alternatives, line, i + 1)
  }

  /** The argument check passes when `findall` returns a non-empty list. */
  predicate ArgsFound(args: seq<string>, line: string)
  {
    |LookaheadPositions(args, line, 0)| > 0
  }

  /**
   * The process counts for the rule: a rule without `args` accepts any
   * command line; one with `args` needs the argument check to pass on the
   * space-joined command line.
   */
  predicate ArgsSatisfied(rule: Rule, cmdline: seq<string>)
  {
    rule.args.None? || ArgsFound(rule.args.value, JoinSpace(cmdline))
  }

  /**
   * The rule a process is reported under, if any: the first rule whose
   * binaries contain the process name, provided its argument check
   * passes. A failed argument check ends the search; later rules are not
   * tried. A process whose name cannot be read is skipped.
   */
  function Match(p: Process, rules: seq<Rule>): Option<Rule>
  {
    match p.name
    case None => None
    case Some(exe) =>
      match FirstBinaryMatch(exe, rules)
      case None => None
      case Some(k) => if ArgsSatisfied(rules[k], p.cmdline) then Some(rules[k]) else None
  }

  /** `findall` finds something from `i` on exactly when some position from `i` on matches. */
  lemma {:induction false} LookaheadPositionsNonEmpty(alternatives: seq<string>, line: string, i: nat)
    requires i <= |line| + 1
    ensures |LookaheadPositions(alternatives, line, i)| > 0
            <==> exists j :: i <= j <= |line| && AlternationMatchesAt(alternatives, line[j..])
    decreases |line| + 1 - i
  {
    if i <= |line| {
      LookaheadPositionsNonEmpty(alternatives, line, i + 1);
    }
  }

  /**
   * For a non-empty list of literal arguments, the argument check passes
   * exactly when one of them occurs in the line.
   */
  lemma ArgsFoundIffOccurs(args: seq<string>, line: string)
    requires |args| > 0
    ensures ArgsFound(args, line) <==> exists a :: a in args && Occurs(a, line)
  {
    LookaheadPositionsNonEmpty(args, line, 0);
    if ArgsFound(args, line) {
      var j :| 0 <= j <= |line| && AlternationMatchesAt(args, line[j..]);
      var a :| a in args && a <= line[j..];
      assert Occurs(a, line);
    }
    if exists a :: a in args && Occurs(a, line) {
      var a :| a in args && Occurs(a, line);
      var j :| 0 <= j <= |line| && a <= line[j..];
      assert AlternationMatchesAt(args, line[j..]);
    }
  }

  /** An empty `args` list builds the empty pattern, so its check always passes. */
  lemma EmptyArgsAlwaysFound(line: string)
    ensures ArgsFound([], line)
  {
  }

  /**
   * The matcher in full: it reports `r` exactly when the process name is
   * readable, `r` is the first rule in table order listing that name, and
   * `r`'s argument check passes.
   */
  lemma MatchIsFirstBinaryRule(p: Process, rules: seq<Rule>, r: Rule)
    ensures Match(p, rules) == Some(r) <==>
            exists k :: 0 <= k < |rules| && rules[k] == r && p.name.Some?
                     && p.name.value in r.binaries
                     && (forall j :: 0 <= j < k ==> p.name.value !in rules[j].binaries)
                     && ArgsSatisfied(r, p.cmdline)
  {
  }

  /**
   * A rule that declares no arguments catches every process named by the
   * first rule listing that name, whatever its command line.
   */
  lemma NoArgsRuleIgnoresCmdline(p: Process, rules: seq<Rule>, k: nat, cmdline: seq<string>)
    requires k < |rules| && rules[k].args.None?
    requires p.name.Some? && p.name.value in rules[k].binaries
    requires forall j :: 0 <= j < k ==> p.name.value !in rules[j].binaries
    ensures Match(p, rules) == Some(rules[k])
    ensures Match(p.(cmdline := cmdline), rules) == Some(rules[k])
  {
  }

  /**
   * A rule with a non-empty `args` list catches such a process exactly when
   * one of its arguments occurs in the space-joined command line.
   */
  lemma ArgsRuleIffOccurs(p: Process, rules: seq<Rule>, k: nat)
    requires k < |rules| && rules[k].args.Some? && |rules[k].args.value| > 0
    requires p.name.Some? && p.name.value in rules[k].binaries
    requires forall j :: 0 <= j < k ==> p.name.value !in rules[j].binaries
    ensures Match(p, rules) == Some(rules[k])
            <==> exists a :: a in rules[k].args.value && Occurs(a, JoinSpace(p.cmdline))
  {
    MatchIsFirstBinaryRule(p, rules, rules[k]);
    ArgsFoundIffOccurs(rules[k].args.value, JoinSpace(p.cmdline));
  }

  /**
   * When the first rule listing the process name rejects its arguments,
   * the process is not reported, even if a later rule would accept it.
   */
  lemma FailedArgsStopsSearch(p: Process, rules: seq<Rule>, k: nat)
    requires k < |rules| && !ArgsSatisfied(rules[k], p.cmdline)
    requires p.name.Some? && p.name.value in rules[k].binaries
    requires forall j :: 0 <= j < k ==> p.name.value !in rules[j].binaries
    ensures Match(p, rules) == None
  {
  }

  /**
   * The reading of the matcher in which a failed argument check moves on
   * to the next rule: the first rule whose binaries and arguments both
   * accept the process.
   */
  function MatchScanningOn(p: Process, rules: seq<Rule>): Option<Rule>
  {
    if p.name.None? || rules == [] then None
    else if p.name.value in rules[0].binaries && ArgsSatisfied(rules[0], p.cmdline) then Some(rules[0])
    else MatchScanningOn(p, rules[1..])
  }

  /** No executable name of a rule with arguments is listed again by a later rule. */
  predicate ArgsBinariesNotRepeated(rules: seq<Rule>)
  {
    forall i, j, k :: 0 <= i < j < |rules| && rules[i].args.Some? && 0 <= k < |rules[i].binaries|
                      ==> rules[i].binaries[k] !in rules[j].binaries
  }

  /**
   * When no executable name of a rule with arguments is listed again
   * later, stopping at the first binary match and scanning on give the
   * same answer.
   */
  lemma {:induction false} ScanningOnAgrees(p: Process, rules: seq<Rule>)
    requires ArgsBinariesNotRepeated(rules)
    ensures Match(p, rules) == MatchScanningOn(p, rules)
    decreases |rules|
  {
    if p.name.Some? && rules != [] {
      var exe := p.name.value;
      if exe !in rules[0].binaries {
        ScanningOnAgrees(p, rules[1..]);
        assert FirstBinaryMatch(exe, rules[1..]).Some? ==> FirstBinaryMatch(exe, rules).value == FirstBinaryMatch(exe, rules[1..]).value + 1;
      } else if !ArgsSatisfied(rules[0], p.cmdline) {
        NotListedLater(exe, rules);
        NeverScannedOn(p, rules[1..]);
      }
    }
  }

  lemma NotListedLater(exe: string, rules: seq<Rule>)
    requires ArgsBinariesNotRepeated(rules) && rules != [] && rules[0].args.Some? && exe in rules[0].binaries
    ensures forall j :: 0 <= j < |rules[1..]| ==> exe !in rules[1..][j].binaries
  {
  }

  lemma {:induction false} NeverScannedOn(p: Process, rules: seq<Rule>)
    requires p.name.Some? && forall j :: 0 <= j < |rules| ==> p.name.value !in rules[j].binaries
    ensures MatchScanningOn(p, rules) == None
    decreases |rules|
  {
    if rules != [] {
      NeverScannedOn(p, rules[1..]);
    }
  }

  /**
   * In the configured table, the executable names of the two entries with
   * arguments (Test App and All The Mods 9) appear in no later entry.
   */
  lemma BlacklistArgsBinariesNotRepeated()
    ensures ArgsBinariesNotRepeated(Blacklist)
  {
  }

  /** So, for the configured table, a failed argument check loses nothing. */
  lemma BlacklistScanningOnAgrees(p: Process)
    ensures Match(p, Blacklist) == MatchScanningOn(p, Blacklist)
  {
    BlacklistArgsBinariesNotRepeated();
    ScanningOnAgrees(p, Blacklist);
  }

  /** Two rules sharing `java`: the first rejects the arguments, the second would accept. */
  lemma SharedBinaryStopsAtFirstRule(p: Process, rules: seq<Rule>)
    requires rules == [Rule("A", ["java"], Some(["ATM9"])), Rule("B", ["java"], None)]
    requires p.name == Some("java") && p.cmdline == ["java"]
    ensures Match(p, rules) == None && MatchScanningOn(p, rules) == Some(rules[1])
  {
    assert JoinSpace(p.cmdline) == "java";
    assert 'A' !in "java";
    if Occurs("ATM9", "java") {
      OccursHasFirstChar("ATM9", "java");
    }
    ArgsFoundIffOccurs(["ATM9"], "java");
    FailedArgsStopsSearch(p, rules, 0);
  }

  /** The first rule listing `java` is All The Mods 9, which has arguments. */
  lemma JavaListedFirstByAllTheMods()
    ensures Blacklist[4].args == Some(["All The Mods 9", "ATM9"])
    ensures "java" in Blacklist[4].binaries
    ensures forall j :: 0 <= j < 4 ==> "java" !in Blacklist[j].binaries
  {
  }

  /** `java -Dprofile=ATM9` is reported as All The Mods 9. */
  lemma JavaWithProfileIsAllTheMods(p: Process)
    requires p.name == Some("java") && p.cmdline == ["java", "-Dprofile=ATM9"]
    ensures Match(p, Blacklist) == Some(Blacklist[4])
  {
    OccursAt("ATM9", p.cmdline[1], 10);
    OccursInJoin("ATM9", p.cmdline, 1);
    JavaListedFirstByAllTheMods();
    assert "ATM9" in Blacklist[4].args.value;
    ArgsRuleIffOccurs(p, Blacklist, 4);
  }

  /** `java -jar server.jar` names no blacklisted application. */
  lemma PlainJavaServerIsNotReported(p: Process)
    requires p.name == Some("java") && p.cmdline == ["java", "-jar", "server.jar"]
    ensures Match(p, Blacklist) == None
  {
    var line := JoinSpace(p.cmdline);
    JavaListedFirstByAllTheMods();
    assert 'A' !in p.cmdline[0] && 'A' !in p.cmdline[1] && 'A' !in p.cmdline[2];
    CharNotInJoin('A', p.cmdline);
    if Occurs("ATM9", line) {
      OccursHasFirstChar("ATM9", line);
    }
    if Occurs("All The Mods 9", line) {
      OccursHasFirstChar("All The Mods 9", line);
    }
    ArgsRuleIffOccurs(p, Blacklist, 4);
  }

  /** `GeometryDash.exe` is reported as Geometry Dash whatever its arguments. */
  lemma GeometryDashAlwaysReported(p: Process)
    requires p.name == Some("GeometryDash.exe")
    ensures Match(p, Blacklist) == Some(Blacklist[1])
  {
  }
}
