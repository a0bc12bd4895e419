/**
 * The shell's command-not-found handler on KDE Linux: it looks the missing
 * command up in three fixed tables and prints one explanatory message,
 * always ending with status 127.
 */
module CommandNotFound {
  import opened Text

  /** Commands with a different tool to use instead. */
  const KnownAlternatives: map<string, string> := map[
    "adduser" := "useradd",
    "arp" := "ip neigh",
    "cron" := "systemctl list-timers",
    "dig" := "resolvectl query",
    "egrep" := "rg",
    "fgrep" := "rg -F",
    "hostname" := "hostnamectl",
    "host" := "resolvectl query",
    "ifconfig" := "ip address",
    "ifdown" := "ip link set [interface] down",
    "ifup" := "ip link set [interface] up",
    "iptunnel" := "ip tunnel",
    "nameif" := "ip link",
    "netstat" := "ss",
    "nslookup" := "resolvectl query",
    "route" := "ip route",
    "service" := "systemctl",
    "traceroute" := "tracepath",
    "vi" := "vim"
  ]

  /** Package managers of other distributions, which cannot be used here. */
  const UnsupportedPackageManagers: seq<string> :=
    ["apt", "apt-get", "dnf", "dpkg", "nix", "pacman", "pamac", "portage", "rpm", "yum", "zypper"]

  /** Package managers a user may add, with the page explaining how. */
  const AvailablePackageManagers: map<string, string> := map[
    "brew" := "https://community.kde.org/KDE_Linux/Install_software_not_available_in_Discover#Homebrew",
    "nix" := "https://community.kde.org/KDE_Linux/Install_software_not_available_in_Discover#Nix"
  ]

  const DiscoverPage: string := "https://community.kde.org/KDE_Linux/Install_software_not_available_in_Discover"

  /** Status of every handled lookup, the shell's "command not found". */
  const NotFound: int := 127

  /** Which branch of the handler a command takes, with the table entry it found. */
  datatype Kind = Alternative(tool: string) | Unsupported | Available(url: string) | Unknown

  /**
   * The if-chain: known alternatives first, then the unsupported package
   * managers, then the available ones; anything else is unknown.
   */
  function Classify(command: string): (k: Kind)
    ensures k.Alternative? <==> command in KnownAlternatives
    ensures k.Alternative? ==> k.tool == KnownAlternatives[command]
    ensures k.Unsupported? <==> command !in KnownAlternatives && command in UnsupportedPackageManagers
    ensures k.Available? <==> command !in KnownAlternatives && command !in UnsupportedPackageManagers
                              && command in AvailablePackageManagers
    ensures k.Available? ==> k.url == AvailablePackageManagers[command]
    ensures k.Unknown? <==> command !in KnownAlternatives && command !in UnsupportedPackageManagers
                            && command !in AvailablePackageManagers
  {
    if command in KnownAlternatives then Alternative(KnownAlternatives[command])
    else if command in UnsupportedPackageManagers then Unsupported
    else if command in AvailablePackageManagers then Available(AvailablePackageManagers[command])
    else Unknown
  }

  /** A command name between typographic quotes, as every message shows it. */
  function Quoted(s: string): string {
    "\U{201C}" + s + "\U{201D}"
  }

  /** How every message opens, after a blank line. */
  const Opening: string := "\nKDE Linux does not "

  /** The opening of a message, up to the quoted command. */
  function Lead(k: Kind): (r: string)
    ensures StartsWith(r, Opening)
  {
    if k.Available? then Opening + "pre-install the " else Opening + "include the "
  }

  /** The fixed text of each message between the quoted command and what it offers. */
  const AlternativeFront: string := " tool.\n\nInstead, try using "
  const UnsupportedFront: string := " package manager.\n\n"
    + "Graphical software is available using the Discover app center. To learn how to install software that's not available in Discover, see\n"
  const AvailableFront: string := " package manager, but it can be added manually.\n\n" + "To do so, follow the instructions at "
  const UnknownFront: string := " command.\n\n"
    + "If you know it exists, and it's important for your workflow, learn about options for getting it at\n"
  const UnknownAnchor: string := "#Software_not_listed_above\n"

  /**
   * The rest of a message, after the quoted command: it ends in a newline
   * and holds the alternative tool, the instructions URL or the Discover
   * page, whichever the case offers.
   */
  function Tail(k: Kind): (r: string)
    ensures |r| > 0 && r[|r| - 1] == '\n'
    ensures k.Alternative? ==> Contains(r, Quoted(k.tool))
    ensures k.Available? ==> Contains(r, k.url)
    ensures k.Unsupported? || k.Unknown? ==> Contains(r, DiscoverPage)
  {
    match k
    case Alternative(tool) =>
      ContainsMiddle(AlternativeFront, Quoted(tool), ".\n");
      AlternativeFront + Quoted(tool) + ".\n"
    case Unsupported =>
      ContainsMiddle(UnsupportedFront, DiscoverPage, ".\n");
      UnsupportedFront + DiscoverPage + ".\n"
    case Available(url) =>
      ContainsMiddle(AvailableFront, url, "\n");
      AvailableFront + url + "\n"
    case Unknown =>
      ContainsMiddle(UnknownFront, DiscoverPage, UnknownAnchor);
      UnknownFront + DiscoverPage + UnknownAnchor
  }

  /**
   * The text of the one message printed for `command`, without print's final
   * newline: the common opening, the quoted command, and a final newline.
   */
  function Message(command: string, k: Kind): (r: string)
    ensures StartsWith(r, Opening)
    ensures Contains(r, Quoted(command))
    ensures r[|r| - 1] == '\n'
  {
    ContainsSelf(Quoted(command));
    ContainsPrefix(Lead(k), Quoted(command), Quoted(command));
    ContainsSuffix(Lead(k) + Quoted(command), Tail(k), Quoted(command));
    assert (Lead(k) + Quoted(command) + Tail(k))[..|Opening|] == Lead(k)[..|Opening|];
    Lead(k) + Quoted(command) + Tail(k)
  }

  /** What a run leaves behind: its standard output and its exit status. */
  datatype Reply = Reply(stdout: string, status: int)

  /**
   * The whole script on its argument vector. Without a command argument
   * reading sys.argv[1] raises, and the interpreter exits with status 1
   * having printed nothing to standard output.
   */
  function Handle(argv: seq<string>): (r: Reply)
    ensures |argv| < 2 ==> r == Reply("", 1)
    ensures |argv| >= 2 ==> r.status == NotFound
    ensures |argv| >= 2 ==> r.stdout == Message(argv[1], Classify(argv[1])) + "\n"
  {
    if |argv| < 2 then Reply("", 1)
    else
      var command := argv[1];
      Reply(Message(command, Classify(command)) + "\n", NotFound)
  }

  /**
   * `nix` is listed both as unsupported and as available; the unsupported
   * branch comes first, so it is the one taken.
   */
  lemma NixIsUnsupported()
    ensures "nix" in UnsupportedPackageManagers && "nix" in AvailablePackageManagers
    ensures Classify("nix") == Unsupported
  {
    assert UnsupportedPackageManagers[4] == "nix";
  }

  /** Because of that overlap, the available branch is taken for `brew` and nothing else. */
  lemma AvailableOnlyForBrew(command: string)
    ensures Classify(command).Available? <==> command == "brew"
  {
    NixIsUnsupported();
    if command == "brew" {
      assert "brew" !in KnownAlternatives;
      assert "brew" !in UnsupportedPackageManagers;
    }
  }

  /** The known-alternative and package-manager tables share no name. */
  lemma TablesOverlapOnlyAtNix()
    ensures forall c :: c in KnownAlternatives ==> c !in UnsupportedPackageManagers && c !in AvailablePackageManagers
    ensures forall c :: c in UnsupportedPackageManagers && c in AvailablePackageManagers ==> c == "nix"
  {
    AlternativesNotUnsupported();
  }

  lemma AlternativesNotUnsupported()
    ensures forall c :: c in KnownAlternatives ==> c !in UnsupportedPackageManagers
  {
    forall c | c in UnsupportedPackageManagers ensures c !in KnownAlternatives {
      var i :| 0 <= i < |UnsupportedPackageManagers| && UnsupportedPackageManagers[i] == c;
    }
  }

  /** Every message names the command, in quotes. */
  lemma MessageQuotesCommand(argv: seq<string>)
    requires |argv| >= 2
    ensures Contains(Handle(argv).stdout, Quoted(argv[1]))
  {
    ContainsSuffix(Message(argv[1], Classify(argv[1])), "\n", Quoted(argv[1]));
  }

  /** A known alternative's message names the tool to use instead. */
  lemma AlternativeNamesTool(argv: seq<string>)
    requires |argv| >= 2 && argv[1] in KnownAlternatives
    ensures Contains(Handle(argv).stdout, Quoted(KnownAlternatives[argv[1]]))
  {
    var c := argv[1];
    var k := Classify(c);
    ContainsPrefix(Lead(k) + Quoted(c), Tail(k), Quoted(k.tool));
    ContainsSuffix(Message(c, k), "\n", Quoted(k.tool));
  }

  /** An available package manager's message gives the page explaining how to add it. */
  lemma AvailableGivesUrl(argv: seq<string>)
    requires |argv| >= 2 && Classify(argv[1]).Available?
    ensures Contains(Handle(argv).stdout, AvailablePackageManagers[argv[1]])
  {
    var c := argv[1];
    var k := Classify(c);
    ContainsPrefix(Lead(k) + Quoted(c), Tail(k), k.url);
    ContainsSuffix(Message(c, k), "\n", k.url);
  }
}
