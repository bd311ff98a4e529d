/**
 The local syslog configuration of the monitor agent: five config files, a remembered port, and the
 generate and remove steps that a polling watcher takes.
 */
module SyslogConfig {
  import opened Text

  // ---------- Port numbers ----------

  /** `int(s.strip())` on ASCII text: an optional sign and digits. */
  function PyInt(s: string): Option<int>
  {
    var t := Strip(s);
    if t != "" && (t[0] == '-' || t[0] == '+') then
      match ParseNat(t[1..])
      case None => None
      case Some(n) => Some(if t[0] == '-' then -(n as int) else n as int)
    else
      match ParseNat(t)
      case None => None
      case Some(n) => Some(n as int)
  }

  /** `validate_port_number`: the number in canonical form, or "". */
  function ValidatePort(s: string): string
  {
    if s == "" then ""
    else
      match PyInt(s)
      case None => ""
      case Some(n) => if n < 1 || n > 65535 then "" else Decimal(n)
  }

  predicate IsPort(n: int)
  {
    1 <= n <= 65535
  }

  lemma StripDecimal(n: nat)
    ensures Strip(Decimal(n)) == Decimal(n)
  {
    var d := Decimal(n);
    assert IsDigit(d[0]) && IsDigit(d[|d| - 1]);
  }

  lemma PyIntOfDecimal(n: nat)
    ensures PyInt(Decimal(n)) == Some(n)
  {
    StripDecimal(n);
    ValueOfDecimal(n);
    assert IsDigit(Decimal(n)[0]);
  }

  /** Valid ports are compared as strings; canonical form makes that a comparison of numbers. */
  lemma PortsCanonical(a: string, b: string)
    ensures ValidatePort(a) != "" <==> PyInt(a).Some? && IsPort(PyInt(a).value)
    ensures ValidatePort(ValidatePort(a)) == ValidatePort(a)
    ensures ValidatePort(a) != "" && ValidatePort(b) != "" ==> (ValidatePort(a) == ValidatePort(b) <==> PyInt(a) == PyInt(b))
  {
    if ValidatePort(a) != "" {
      PyIntOfDecimal(PyInt(a).value);
      if ValidatePort(b) != "" {
        PyIntOfDecimal(PyInt(b).value);
      }
    }
  }

  /** The text is a number: digits with or without a sign. */
  predicate Numeral(t: string, n: int)
  {
    if t != "" && (t[0] == '-' || t[0] == '+') then
      |t| > 1 && AllDigits(t[1..]) && n == (if t[0] == '-' then -(Value(t[1..]) as int) else Value(t[1..]))
    else t != "" && AllDigits(t) && n == Value(t)
  }

  /** The text is a number with blanks around it. */
  ghost predicate Denotes(s: string, n: int)
  {
    exists x, t, y :: s == x + t + y && Blank(x) && Blank(y) && Numeral(t, n)
  }

  lemma NumeralTrimmed(t: string, n: int)
    requires Numeral(t, n)
    ensures Trimmed(t)
  {
    assert |t| > 1 ==> t[1..][|t| - 2] == t[|t| - 1];
  }

  lemma PyIntExactly(s: string, n: int)
    ensures PyInt(s) == Some(n) <==> Denotes(s, n)
  {
    if PyInt(s) == Some(n) {
      var x, y := StripSpan(s);
      assert Numeral(Strip(s), n);
    }
    if Denotes(s, n) {
      var x, t, y :| s == x + t + y && Blank(x) && Blank(y) && Numeral(t, n);
      NumeralTrimmed(t, n);
      StripPadded(x, t, y);
    }
  }

  /** Exactly the texts of numbers in the range of ports are accepted, and made canonical. */
  lemma PortsAccepted(s: string)
    ensures forall n | Denotes(s, n) :: ValidatePort(s) == if 1 <= n <= 65535 then Decimal(n) else ""
    ensures (forall n :: !Denotes(s, n)) ==> ValidatePort(s) == ""
  {
    forall n | Denotes(s, n) ensures ValidatePort(s) == if 1 <= n <= 65535 then Decimal(n) else "" {
      PyIntExactly(s, n);
      NonEmpty(s, n);
    }
    if ValidatePort(s) != "" {
      PyIntExactly(s, PyInt(s).value);
    }
  }

  lemma NonEmpty(s: string, n: int)
    requires Denotes(s, n)
    ensures s != ""
  {
    var x, t, y :| s == x + t + y && Blank(x) && Blank(y) && Numeral(t, n);
  }

  // ---------- State and inputs ----------

  const DEFAULT_PORT: string := "28330"

  /** The agent's files; a TCP config is known by the port it carries, `.bak` is what a port rewrite leaves. */
  datatype Disk = Disk(
    loader: bool, rsyslogTcp: Option<string>, rsyslogUnix: bool,
    ngTcp: Option<string>, ngUnix: bool,
    rsyslogBak: bool, ngBak: bool)

  /** The remembered port is None for the initial number 0. */
  datatype State = State(remembered: Option<string>, disk: Disk)

  /** What a generate step reads from its arguments and from the machine; the directory may be there without our files. */
  datatype Inputs = Inputs(
    gcs: bool, mcs: bool, portFile: Option<string>,
    selinuxConfig: bool, seDisabled: bool, hasSemanage: bool,
    rsyslogDir: bool, ngInstalled: bool)

  datatype Restarts = Restarts(rsyslog: bool, ng: bool)

  const QUIET: Restarts := Restarts(false, false)

  function Port(i: Inputs): string
  {
    if i.portFile.Some? then ValidatePort(i.portFile.value) else ""
  }

  predicate UseTcp(i: Inputs)
  {
    Port(i) != "" && (!i.selinuxConfig || i.seDisabled || i.hasSemanage)
  }

  predicate AnyInstalled(d: Disk)
  {
    d.rsyslogTcp.Some? || d.rsyslogUnix || d.ngTcp.Some? || d.ngUnix
  }

  /** The step gets past its early returns. */
  predicate Proceeds(s: State, i: Inputs)
  {
    (i.gcs || i.mcs) && !(s.remembered == Some(Port(i)) && AnyInstalled(s.disk))
  }

  /** `/etc/rsyslog.d/` exists: on its own account, or because one of the files in it does. */
  predicate RsyslogDir(d: Disk, i: Inputs)
  {
    i.rsyslogDir || d.loader || d.rsyslogTcp.Some? || d.rsyslogUnix || d.rsyslogBak
  }

  function AfterTcp(d: Disk, i: Inputs): (Disk, Restarts)
  {
    var port := Port(i);
    var r := RsyslogDir(d, i) && (d.rsyslogTcp != Some(port) || (i.gcs && !d.loader));
    var n := i.ngInstalled && d.ngTcp != Some(port);
    var d1 :=
      if !RsyslogDir(d, i) then d
      else if d.rsyslogTcp.None? then
        d.(loader := false, rsyslogUnix := false, rsyslogTcp := Some(port), rsyslogBak := d.rsyslogBak || port != DEFAULT_PORT)
      else
        d.(loader := d.loader || i.gcs, rsyslogTcp := Some(port), rsyslogBak := d.rsyslogBak || d.rsyslogTcp != Some(port));
    var d2 :=
      if !i.ngInstalled then d1
      else if d.ngTcp.None? then d1.(ngUnix := false, ngTcp := Some(port), ngBak := d.ngBak || port != DEFAULT_PORT)
      else d1.(ngTcp := Some(port), ngBak := d.ngBak || d.ngTcp != Some(port));
    (d2, Restarts(r, n))
  }

  function AfterUnix(d: Disk, i: Inputs): (Disk, Restarts)
  {
    var r, n := RsyslogDir(d, i) && !d.rsyslogUnix, i.ngInstalled && !d.ngUnix;
    var d1 := if r then d.(loader := true, rsyslogUnix := true, rsyslogTcp := None) else d;
    var d2 := if n then d1.(ngUnix := true, ngTcp := None) else d1;
    (d2, Restarts(r, n))
  }

  function Generate(s: State, i: Inputs): (State, Restarts)
  {
    if !Proceeds(s, i) then (s, QUIET)
    else
      var remembered := if Port(i) != "" then Some(Port(i)) else s.remembered;
      var (disk, restarts) := if UseTcp(i) then AfterTcp(s.disk, i) else AfterUnix(s.disk, i);
      (State(remembered, disk), restarts)
  }

  function Remove(s: State): (State, Restarts)
  {
    var d := s.disk;
    var r, n := d.rsyslogUnix || d.rsyslogTcp.Some?, d.ngUnix || d.ngTcp.Some?;
    (State(None, d.(loader := d.loader && !r, rsyslogTcp := None, rsyslogUnix := false, ngTcp := None, ngUnix := false)),
     Restarts(r, n))
  }

  // ---------- The steps, file by file ----------

  class SyslogAgent {
    var mdsdSyslogPort: Option<string>
    var disk: Disk

    constructor (disk: Disk)
      ensures Current() == State(None, disk)
    {
      mdsdSyslogPort := None;
      this.disk := disk;
    }

    function Current(): State
      reads this
    {
      State(mdsdSyslogPort, disk)
    }

    method GenerateLocalSyslogConfigs(i: Inputs) returns (restarts: Restarts)
      modifies this
      ensures (Current(), restarts) == Generate(old(Current()), i)
    {
      restarts := QUIET;
      if !i.gcs && !i.mcs {
        return;
      }
      var syslogPort := "";
      if i.portFile.Some? {
        syslogPort := ValidatePort(i.portFile.value);
      }
      var useSyslogTcp := false;
      if Some(syslogPort) == mdsdSyslogPort {
        if disk.rsyslogTcp.Some? || disk.rsyslogUnix || disk.ngTcp.Some? || disk.ngUnix {
          return;
        }
      }
      if !i.selinuxConfig {
        useSyslogTcp := true;
      } else if i.seDisabled {
        useSyslogTcp := true;
      } else if i.hasSemanage && syslogPort != "" {
        useSyslogTcp := true;
      }
      if syslogPort != "" {
        mdsdSyslogPort := Some(syslogPort);
      }
      if useSyslogTcp && syslogPort != "" {
        restarts := InstallTcp(i, syslogPort);
      } else {
        restarts := InstallUnixSocket(i);
      }
    }

    method InstallTcp(i: Inputs, port: string) returns (restarts: Restarts)
      requires port == Port(i)
      modifies this`disk
      ensures (disk, restarts) == AfterTcp(old(disk), i)
    {
      var r, n := false, false;
      if RsyslogDir(disk, i) {
        r := InstallRsyslogTcp(i.gcs, port);
      }
      if i.ngInstalled {
        n := InstallNgTcp(port);
      }
      restarts := Restarts(r, n);
    }

    method InstallUnixSocket(i: Inputs) returns (restarts: Restarts)
      modifies this`disk
      ensures (disk, restarts) == AfterUnix(old(disk), i)
      ensures var d := old(disk);
              var install := RsyslogDir(d, i) && !d.rsyslogUnix;
              && disk.loader == (d.loader || install)
              && disk.rsyslogUnix == (d.rsyslogUnix || install)
              && disk.rsyslogTcp == (if install then None else d.rsyslogTcp)
              && disk.ngUnix == (d.ngUnix || i.ngInstalled)
              && disk.ngTcp == (if i.ngInstalled && !d.ngUnix then None else d.ngTcp)
    {
      var r, n := false, false;
      if RsyslogDir(disk, i) && !disk.rsyslogUnix {
        if disk.rsyslogTcp.Some? {
          disk := disk.(rsyslogTcp := None);
        }
        disk := disk.(loader := true);
        disk := disk.(rsyslogUnix := true);
        r := true;
      }
      if i.ngInstalled && !disk.ngUnix {
        if disk.ngTcp.Some? {
          disk := disk.(ngTcp := None);
        }
        disk := disk.(ngUnix := true);
        n := true;
      }
      restarts := Restarts(r, n);
    }

    method InstallRsyslogTcp(gcs: bool, port: string) returns (restartRequired: bool)
      modifies this`disk
      ensures var d := old(disk);
              && restartRequired == (d.rsyslogTcp != Some(port) || (gcs && !d.loader))
              && disk == if d.rsyslogTcp.None?
                         then d.(loader := false, rsyslogUnix := false, rsyslogTcp := Some(port),
                                 rsyslogBak := d.rsyslogBak || port != DEFAULT_PORT)
                         else d.(loader := d.loader || gcs, rsyslogTcp := Some(port),
                                 rsyslogBak := d.rsyslogBak || d.rsyslogTcp != Some(port))
    {
      restartRequired := false;
      if gcs && !disk.loader {
        disk := disk.(loader := true);
        restartRequired := true;
      }
      if disk.rsyslogTcp.None? {
        if disk.loader {
          disk := disk.(loader := false);
        }
        if disk.rsyslogUnix {
          disk := disk.(rsyslogUnix := false);
        }
        disk := disk.(rsyslogTcp := Some(DEFAULT_PORT));
        restartRequired := true;
      }
      var portUpdated := disk.rsyslogTcp.value != port;
      if portUpdated {
        disk := disk.(rsyslogTcp := Some(DEFAULT_PORT));
        disk := disk.(rsyslogBak := true);
        if disk.rsyslogTcp.value == DEFAULT_PORT {
          disk := disk.(rsyslogTcp := Some(port));
        }
        restartRequired := true;
      }
    }

    method InstallNgTcp(port: string) returns (restartRequired: bool)
      modifies this`disk
      ensures var d := old(disk);
              && restartRequired == (d.ngTcp != Some(port))
              && disk == if d.ngTcp.None?
                         then d.(ngUnix := false, ngTcp := Some(port), ngBak := d.ngBak || port != DEFAULT_PORT)
                         else d.(ngTcp := Some(port), ngBak := d.ngBak || d.ngTcp != Some(port))
    {
      restartRequired := false;
      if disk.ngTcp.None? {
        if disk.ngUnix {
          disk := disk.(ngUnix := false);
        }
        disk := disk.(ngTcp := Some(DEFAULT_PORT));
        restartRequired := true;
      }
      var portUpdated := disk.ngTcp.value != port;
      if portUpdated {
        disk := disk.(ngTcp := Some(DEFAULT_PORT));
        disk := disk.(ngBak := true);
        if disk.ngTcp.value == DEFAULT_PORT {
          disk := disk.(ngTcp := Some(port));
        }
        restartRequired := true;
      }
    }

    method RemoveLocalSyslogConfigs() returns (restarts: Restarts)
      modifies this
      ensures (Current(), restarts) == Remove(old(Current()))
    {
      mdsdSyslogPort := None;
      var r, n := false, false;
      if disk.rsyslogUnix || disk.rsyslogTcp.Some? {
        if disk.rsyslogTcp.Some? {
          disk := disk.(rsyslogTcp := None);
        }
        if disk.loader {
          disk := disk.(loader := false);
        }
        if disk.rsyslogUnix {
          disk := disk.(rsyslogUnix := false);
        }
        r := true;
      }
      if disk.ngUnix || disk.ngTcp.Some? {
        if disk.ngTcp.Some? {
          disk := disk.(ngTcp := None);
        }
        if disk.ngUnix {
          disk := disk.(ngUnix := false);
        }
        n := true;
      }
      restarts := Restarts(r, n);
    }

    /** One turn of `syslogconfig_watcher`. */
    method Watch(t: Tick) returns (restarts: Restarts)
      modifies this
      ensures (Current(), restarts) == Step(old(Current()), t)
      ensures (if t.marker.Some? then !Contains(t.marker.value, "true") else !t.inputs.gcs) ==>
              mdsdSyslogPort.None? && disk.rsyslogTcp.None? && !disk.rsyslogUnix && disk.ngTcp.None? && !disk.ngUnix
    {
      var syslogEnabled := false;
      if t.marker.Some? {
        if t.marker.value != "" {
          if Contains(t.marker.value, "true") {
            syslogEnabled := true;
          }
        }
      } else if t.inputs.gcs {
        syslogEnabled := true;
      }
      if syslogEnabled {
        restarts := GenerateLocalSyslogConfigs(t.inputs);
      } else {
        restarts := RemoveLocalSyslogConfigs();
      }
    }
  }

  // ---------- Invariants ----------

  /** What a turn of the watcher finds: the marker file and the inputs of a generate step. */
  datatype Tick = Tick(marker: Option<string>, inputs: Inputs)

  predicate Enabled(t: Tick)
  {
    if t.marker.Some? then Contains(t.marker.value, "true") else t.inputs.gcs
  }

  function Step(s: State, t: Tick): (State, Restarts)
  {
    if Enabled(t) then Generate(s, t.inputs) else Remove(s)
  }

  /** TCP and unix socket configs never stand side by side, and the loader never stands alone. */
  predicate Exclusive(d: Disk)
  {
    && !(d.rsyslogTcp.Some? && d.rsyslogUnix)
    && !(d.ngTcp.Some? && d.ngUnix)
    && (d.loader ==> d.rsyslogTcp.Some? || d.rsyslogUnix)
  }

  /** Installed TCP configs carry the remembered port. */
  predicate CarriesPort(s: State)
  {
    s.remembered.Some? ==>
      && (s.disk.rsyslogTcp.Some? ==> s.disk.rsyslogTcp == s.remembered)
      && (s.disk.ngTcp.Some? ==> s.disk.ngTcp == s.remembered)
  }

  /** The syslog-ng config stays behind with another port because its daemon is gone when the port changes. */
  predicate LeavesStale(s: State, i: Inputs)
  {
    Proceeds(s, i) && Port(i) != "" && !i.ngInstalled && s.disk.ngTcp.Some? && s.disk.ngTcp != Some(Port(i))
  }

  /** A generate step keeps the files exclusive; it keeps the port unless syslog-ng has vanished. */
  lemma GenerateKeeps(s: State, i: Inputs)
    requires Exclusive(s.disk) && CarriesPort(s)
    ensures Exclusive(Generate(s, i).0.disk)
    ensures CarriesPort(Generate(s, i).0) <==> !LeavesStale(s, i)
  {
  }

  lemma RemoveClears(s: State)
    requires Exclusive(s.disk)
    ensures var d := Remove(s).0.disk;
            !d.loader && !AnyInstalled(d) && Exclusive(d) && CarriesPort(Remove(s).0)
  {
  }

  /** A step that acts installs the transport it chose, for every daemon that is there. */
  lemma GenerateInstallsChoice(s: State, i: Inputs)
    requires Exclusive(s.disk) && Proceeds(s, i)
    ensures var d := Generate(s, i).0.disk;
            && (RsyslogDir(s.disk, i) ==> if UseTcp(i) then d.rsyslogTcp == Some(Port(i)) && !d.rsyslogUnix
                                 else d.rsyslogUnix && d.rsyslogTcp.None?)
            && (i.ngInstalled ==> if UseTcp(i) then d.ngTcp == Some(Port(i)) && !d.ngUnix
                                  else d.ngUnix && d.ngTcp.None?)
  {
  }

  /** A text that is a port number, in the range of ports, was handed over. */
  ghost predicate PortGiven(i: Inputs, n: int)
  {
    i.portFile.Some? && Denotes(i.portFile.value, n) && 1 <= n <= 65535
  }

  /** SELinux is there, is not disabled, and there is no tool to open the port. */
  predicate Confined(i: Inputs)
  {
    i.selinuxConfig && !i.seDisabled && !i.hasSemanage
  }

  lemma PortGivenIs(i: Inputs)
    ensures forall n | PortGiven(i, n) :: Port(i) == Decimal(n)
    ensures (forall n :: !PortGiven(i, n)) ==> Port(i) == ""
  {
    if i.portFile.Some? {
      PortsAccepted(i.portFile.value);
      if Port(i) != "" {
        PyIntExactly(i.portFile.value, PyInt(i.portFile.value).value);
        assert PortGiven(i, PyInt(i.portFile.value).value);
      }
    }
  }

  /** Each daemon that is there ends with TCP on the given port, or with the unix socket if none is given or SELinux is in the way. */
  lemma TransportExactly(s: State, i: Inputs)
    requires Exclusive(s.disk) && Proceeds(s, i)
    ensures var d := Generate(s, i).0.disk;
            && (forall n | PortGiven(i, n) && !Confined(i) ::
                  && (RsyslogDir(s.disk, i) ==> d.rsyslogTcp == Some(Decimal(n)) && !d.rsyslogUnix)
                  && (i.ngInstalled ==> d.ngTcp == Some(Decimal(n)) && !d.ngUnix))
            && (Confined(i) || (forall n :: !PortGiven(i, n)) ==>
                  && (RsyslogDir(s.disk, i) ==> d.rsyslogUnix && d.rsyslogTcp.None?)
                  && (i.ngInstalled ==> d.ngUnix && d.ngTcp.None?))
  {
    PortGivenIs(i);
    GenerateInstallsChoice(s, i);
  }

  /**
   One turn of the watcher, from any exclusive files.  A marker file switches it by the word `true`,
   wherever that stands; without a marker file the first control plane does.  Switched on for a
   control plane it leaves a config with a daemon that is there; switched off it leaves none.
   */
  lemma WatchExactly(s: State, t: Tick)
    requires Exclusive(s.disk)
    ensures var on := if t.marker.Some? then exists k: nat :: OccursAt(t.marker.value, "true", k) else t.inputs.gcs;
            var after := Step(s, t).0;
            && (on && (t.inputs.gcs || t.inputs.mcs) && (RsyslogDir(s.disk, t.inputs) || t.inputs.ngInstalled) ==>
                  after.disk.rsyslogTcp.Some? || after.disk.rsyslogUnix || after.disk.ngTcp.Some? || after.disk.ngUnix)
            && (on && !t.inputs.gcs && !t.inputs.mcs ==> after == s)
            && (!on ==> after == State(None, Disk(false, None, false, None, false, s.disk.rsyslogBak, s.disk.ngBak)))
  {
    if t.marker.Some? {
      ContainsExactly(t.marker.value, "true");
    }
    if Enabled(t) {
      GenerateInstalls(s, t.inputs);
    } else {
      RemoveClears(s);
    }
  }

  lemma GenerateInstalls(s: State, i: Inputs)
    requires Exclusive(s.disk)
    ensures (i.gcs || i.mcs) && (RsyslogDir(s.disk, i) || i.ngInstalled) ==> AnyInstalled(Generate(s, i).0.disk)
    ensures !i.gcs && !i.mcs ==> Generate(s, i).0 == s
  {
  }

  /** The state after the first n turns of a run. */
  function StateAt(s: State, run: seq<Tick>, n: nat): State
    requires n <= |run|
  {
    if n == 0 then s else Step(StateAt(s, run, n - 1), run[n - 1]).0
  }

  /** Whatever daemons come and go, transports stay apart, and nothing is left after a remove. */
  lemma {:induction false} RunKeepsExclusive(s: State, run: seq<Tick>, n: nat)
    requires Exclusive(s.disk) && n <= |run|
    ensures var d := StateAt(s, run, n).disk;
            Exclusive(d) && (n > 0 && !Enabled(run[n - 1]) ==> !d.loader && !AnyInstalled(d))
  {
    if n > 0 {
      RunKeepsExclusive(s, run, n - 1);
      StepKeepsExclusive(StateAt(s, run, n - 1), run[n - 1]);
    }
  }

  lemma StepKeepsExclusive(s: State, t: Tick)
    requires Exclusive(s.disk)
    ensures var d := Step(s, t).0.disk; Exclusive(d) && (!Enabled(t) ==> !d.loader && !AnyInstalled(d))
  {
  }

  /** A unix socket config is never without the loader of its module, in any run that starts so. */
  lemma {:induction false} RunKeepsLoader(s: State, run: seq<Tick>, n: nat)
    requires n <= |run| && (s.disk.rsyslogUnix ==> s.disk.loader)
    ensures StateAt(s, run, n).disk.rsyslogUnix ==> StateAt(s, run, n).disk.loader
  {
    if n > 0 {
      RunKeepsLoader(s, run, n - 1);
      StepKeepsLoader(StateAt(s, run, n - 1), run[n - 1]);
    }
  }

  lemma StepKeepsLoader(s: State, t: Tick)
    requires s.disk.rsyslogUnix ==> s.disk.loader
    ensures Step(s, t).0.disk.rsyslogUnix ==> Step(s, t).0.disk.loader
  {
  }

  /** In turn n a TCP config stays behind. */
  predicate StaleTurn(s: State, run: seq<Tick>, n: nat)
    requires n < |run|
  {
    Enabled(run[n]) && LeavesStale(StateAt(s, run, n), run[n].inputs)
  }

  lemma StepCarriesPort(s: State, t: Tick)
    requires Exclusive(s.disk) && CarriesPort(s)
    ensures CarriesPort(Step(s, t).0) <==> !(Enabled(t) && LeavesStale(s, t.inputs))
  {
    if Enabled(t) {
      GenerateKeeps(s, t.inputs);
    }
  }

  ghost predicate CarriesUpTo(s: State, run: seq<Tick>, n: nat)
    requires n <= |run|
  {
    forall k: nat | k <= n :: CarriesPort(StateAt(s, run, k))
  }

  ghost predicate NoneStale(s: State, run: seq<Tick>, n: nat)
    requires n <= |run|
  {
    forall k: nat | k < n :: !StaleTurn(s, run, k)
  }

  lemma TurnCarriesPort(s: State, run: seq<Tick>, n: nat)
    requires n < |run| && Exclusive(StateAt(s, run, n).disk) && CarriesPort(StateAt(s, run, n))
    ensures CarriesPort(StateAt(s, run, n + 1)) <==> !StaleTurn(s, run, n)
  {
    StepCarriesPort(StateAt(s, run, n), run[n]);
  }

  /** Installed configs carry the remembered port all along exactly when no turn leaves one behind. */
  lemma {:induction false} RunCarriesPort(s: State, run: seq<Tick>, n: nat)
    requires Exclusive(s.disk) && CarriesPort(s) && n <= |run|
    ensures CarriesUpTo(s, run, n) <==> NoneStale(s, run, n)
  {
    if n > 0 {
      RunCarriesPort(s, run, n - 1);
      if CarriesUpTo(s, run, n - 1) {
        assert CarriesPort(StateAt(s, run, n - 1));
        RunKeepsExclusive(s, run, n - 1);
        TurnCarriesPort(s, run, n - 1);
      }
    }
  }

  const CLEAN: Disk := Disk(false, None, false, None, false, false, false)

  /** Two turns that leave a stale port: syslog-ng is taken off the machine before the port changes. */
  lemma StalePortLeft(p: int, q: int, first: Inputs, second: Inputs)
    requires IsPort(p) && IsPort(q) && p != q
    requires first.gcs && UseTcp(first) && first.portFile == Some(Decimal(p)) && first.ngInstalled && !first.rsyslogDir
    requires second == first.(portFile := Some(Decimal(q)), ngInstalled := false)
    ensures var s := StateAt(State(None, CLEAN), [Tick(None, first), Tick(None, second)], 2);
            s.remembered == Some(Decimal(q)) && s.disk.ngTcp == Some(Decimal(p)) != Some(Decimal(q))
  {
    PyIntOfDecimal(p);
    PyIntOfDecimal(q);
    var run := [Tick(None, first), Tick(None, second)];
    assert StateAt(State(None, CLEAN), run, 1) == Generate(State(None, CLEAN), first).0;
  }

  // ---------- Restarts ----------

  /** Repeating a generate step does nothing at all. */
  lemma GenerateTwice(s: State, i: Inputs)
    ensures Generate(Generate(s, i).0, i) == (Generate(s, i).0, QUIET)
  {
  }

  function RestartsAt(s: State, run: seq<Tick>, k: nat): Restarts
    requires k < |run|
  {
    Step(StateAt(s, run, k), run[k]).1
  }

  /** Between two generate steps something came up that asks for a restart. */
  predicate NewCause(before: Disk, i: Inputs, after: Disk, j: Inputs)
  {
    || !(i.gcs || i.mcs)
    || Port(i) != Port(j)
    || (!RsyslogDir(before, i) && RsyslogDir(after, j))
    || (!i.ngInstalled && j.ngInstalled)
  }

  lemma QuietWithoutCause(s: State, i: Inputs, j: Inputs)
    requires !NewCause(s.disk, i, Generate(s, i).0.disk, j)
    ensures Generate(Generate(s, i).0, j).1 == QUIET
  {
  }

  /**
   A restart by a generate step has a cause: it is the first step, follows a remove or a step for no
   control plane, or since the last step the port has changed or a daemon has appeared.
   */
  lemma RestartHasCause(s: State, run: seq<Tick>, k: nat)
    requires k < |run| && Enabled(run[k]) && RestartsAt(s, run, k) != QUIET
    ensures k == 0 || !Enabled(run[k - 1])
            || NewCause(StateAt(s, run, k - 1).disk, run[k - 1].inputs, StateAt(s, run, k).disk, run[k].inputs)
  {
    if k > 0 && Enabled(run[k - 1])
       && !NewCause(StateAt(s, run, k - 1).disk, run[k - 1].inputs, StateAt(s, run, k).disk, run[k].inputs) {
      QuietWithoutCause(StateAt(s, run, k - 1), run[k - 1].inputs, run[k].inputs);
    }
  }

  /** The files a daemon reads. */
  function RsyslogFiles(d: Disk): (bool, Option<string>, bool)
  {
    (d.loader, d.rsyslogTcp, d.rsyslogUnix)
  }

  function NgFiles(d: Disk): (Option<string>, bool)
  {
    (d.ngTcp, d.ngUnix)
  }

  /** Each daemon is restarted exactly when a step has changed its files. */
  lemma RestartsIffChanged(s: State, t: Tick)
    requires Exclusive(s.disk)
    ensures var (after, restarts) := Step(s, t);
            && (restarts.rsyslog <==> RsyslogFiles(after.disk) != RsyslogFiles(s.disk))
            && (restarts.ng <==> NgFiles(after.disk) != NgFiles(s.disk))
  {
  }

  // ---------- The backup file ----------

  /** The turn rewrites the port of a config: it carries another, the template's default if it is new. */
  predicate RewritesRsyslog(s: State, t: Tick)
  {
    Enabled(t) && Proceeds(s, t.inputs) && UseTcp(t.inputs) && RsyslogDir(s.disk, t.inputs)
    && Port(t.inputs) != if s.disk.rsyslogTcp.Some? then s.disk.rsyslogTcp.value else DEFAULT_PORT
  }

  predicate RewritesNg(s: State, t: Tick)
  {
    Enabled(t) && Proceeds(s, t.inputs) && UseTcp(t.inputs) && t.inputs.ngInstalled
    && Port(t.inputs) != if s.disk.ngTcp.Some? then s.disk.ngTcp.value else DEFAULT_PORT
  }

  predicate RsyslogTurn(s: State, run: seq<Tick>, k: nat)
    requires k < |run|
  {
    RewritesRsyslog(StateAt(s, run, k), run[k])
  }

  predicate NgTurn(s: State, run: seq<Tick>, k: nat)
    requires k < |run|
  {
    RewritesNg(StateAt(s, run, k), run[k])
  }

  lemma StepRsyslogBak(s: State, t: Tick)
    ensures Step(s, t).0.disk.rsyslogBak <==> s.disk.rsyslogBak || RewritesRsyslog(s, t)
  {
  }

  lemma StepNgBak(s: State, t: Tick)
    ensures Step(s, t).0.disk.ngBak <==> s.disk.ngBak || RewritesNg(s, t)
  {
  }

  ghost predicate RsyslogRewritten(s: State, run: seq<Tick>, n: nat)
    requires n <= |run|
  {
    exists k: nat | k < n :: RsyslogTurn(s, run, k)
  }

  ghost predicate NgRewritten(s: State, run: seq<Tick>, n: nat)
    requires n <= |run|
  {
    exists k: nat | k < n :: NgTurn(s, run, k)
  }

  lemma RsyslogRewrittenStep(s: State, run: seq<Tick>, n: nat)
    requires n < |run|
    ensures RsyslogRewritten(s, run, n + 1) <==> RsyslogRewritten(s, run, n) || RsyslogTurn(s, run, n)
  {
  }

  lemma NgRewrittenStep(s: State, run: seq<Tick>, n: nat)
    requires n < |run|
    ensures NgRewritten(s, run, n + 1) <==> NgRewritten(s, run, n) || NgTurn(s, run, n)
  {
  }

  predicate HasRsyslogBak(s: State, run: seq<Tick>, n: nat)
    requires n <= |run|
  {
    StateAt(s, run, n).disk.rsyslogBak
  }

  predicate HasNgBak(s: State, run: seq<Tick>, n: nat)
    requires n <= |run|
  {
    StateAt(s, run, n).disk.ngBak
  }

  lemma TurnBackups(s: State, run: seq<Tick>, k: nat)
    requires k < |run|
    ensures HasRsyslogBak(s, run, k + 1) <==> HasRsyslogBak(s, run, k) || RsyslogTurn(s, run, k)
    ensures HasNgBak(s, run, k + 1) <==> HasNgBak(s, run, k) || NgTurn(s, run, k)
  {
    StepRsyslogBak(StateAt(s, run, k), run[k]);
    StepNgBak(StateAt(s, run, k), run[k]);
  }

  /** No turn takes a `.bak` file away: one is there exactly if it was at first or some turn has rewritten a port. */
  lemma {:induction false} BackupsStay(s: State, run: seq<Tick>, n: nat)
    requires n <= |run|
    ensures HasRsyslogBak(s, run, n) <==> s.disk.rsyslogBak || RsyslogRewritten(s, run, n)
    ensures HasNgBak(s, run, n) <==> s.disk.ngBak || NgRewritten(s, run, n)
  {
    if n > 0 {
      BackupsStay(s, run, n - 1);
      TurnBackups(s, run, n - 1);
      RsyslogRewrittenStep(s, run, n - 1);
      NgRewrittenStep(s, run, n - 1);
    }
  }

  /** A clean machine is clean again after generate and remove exactly if no port was rewritten. */
  lemma BackupLeftExactly(i: Inputs)
    ensures Remove(Generate(State(None, CLEAN), i).0).0.disk == CLEAN
            <==> !((i.gcs || i.mcs) && UseTcp(i) && Port(i) != "28330" && (i.rsyslogDir || i.ngInstalled))
  {
  }
}
