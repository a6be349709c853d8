/** Choosing the network interface to measure, `get_nic` (statsd-agent.py:320-341),
    and the start-up checks of `main` (statsd-agent.py:436-460). The interface
    table of `psutil.net_if_addrs()` and the names `psutil.net_io_counters(True)`
    knows are inputs. */
module Nic {

  import opened Wrappers
  import opened Text
  import opened Ints
  import opened Fields

  /** The address families psutil reports; only IPv4 matters here. */
  datatype Family = Inet | Inet6 | Link

  datatype Address = Address(family: Family, address: string)

  /** `net_if_addrs().items()`: interface name and its addresses, in iteration order. */
  type InterfaceTable = seq<(string, seq<Address>)>

  /** An IPv4 address in 10.0.0.0/8, written as text starting with "10.". */
  predicate IsTenNet(a: Address) {
    a.family == Inet && StartsWith(a.address, "10.")
  }

  predicate HasTenNet(addrs: seq<Address>) {
    exists k :: 0 <= k < |addrs| && IsTenNet(addrs[k])
  }

  /** The first interface, in table order, with a 10.x IPv4 address. */
  function FirstTenNet(table: InterfaceTable): (r: Option<string>)
    ensures r.None? <==> forall i :: 0 <= i < |table| ==> !HasTenNet(table[i].1)
    ensures r.Some? ==> exists i :: 0 <= i < |table| && table[i].0 == r.value && HasTenNet(table[i].1)
                          && forall j :: 0 <= j < i ==> !HasTenNet(table[j].1)
  {
    if table == [] then None
    else if HasTenNet(table[0].1) then Some(table[0].0)
    else
      var r := FirstTenNet(table[1..]);
      assert forall j :: 1 <= j < |table| ==> table[j] == table[1..][j - 1];
      if r.Some? then
        var i :| 0 <= i < |table[1..]| && table[1..][i].0 == r.value && HasTenNet(table[1..][i].1)
                 && forall j :: 0 <= j < i ==> !HasTenNet(table[1..][j].1);
        assert table[i + 1] == table[1..][i];
        r
      else r
  }

  /** `not netiface`: no interface was named (None or the empty string). */
  predicate Unnamed(requested: Option<string>) {
    requested.None? || requested.value == ""
  }

  /** `get_nic(netiface)`: the named interface, or the first 10.x one when none is
      named; None when there is no such interface or the name has no counters. */
  function SelectNic(requested: Option<string>, table: InterfaceTable, counters: set<string>): (r: Option<string>)
    ensures r.Some? ==> r.value in counters
    ensures !Unnamed(requested) ==> r == if requested.value in counters then requested else None
    ensures Unnamed(requested) ==>
              r == if FirstTenNet(table).Some? && FirstTenNet(table).value in counters then FirstTenNet(table) else None
  {
    var name := if Unnamed(requested) then FirstTenNet(table) else requested;
    match name
    case None => None
    case Some(n) => if n in counters then Some(n) else None
  }

  /** `get_nic` as written: a nested search with a `found` flag and breaks, then
      the lookup among the interfaces that have counters. */
  method GetNic(requested: Option<string>, table: InterfaceTable, counters: set<string>)
    returns (r: Option<string>)
    ensures r == SelectNic(requested, table, counters)
  {
    var netiface := requested;
    if Unnamed(requested) {
      var found := false;
      var i := 0;
      while i < |table|
        invariant i <= |table|
        invariant !found
        invariant forall p :: 0 <= p < i ==> !HasTenNet(table[p].1)
      {
        var (n, info) := table[i];
        var k := 0;
        while k < |info|
          invariant k <= |info|
          invariant !found
          invariant forall q :: 0 <= q < k ==> !IsTenNet(info[q])
        {
          if info[k].family == Inet && StartsWith(info[k].address, "10.") {
            netiface := Some(n);
            found := true;
            break;
          }
          k := k + 1;
        }
        if found {
          break;
        }
        i := i + 1;
      }
      if !found {
        return None;
      }
    }
    if netiface.value !in counters {
      return None;
    }
    r := netiface;
  }

  /** Why `main` stops with an exception before its checks: the `[docker] enabled`
      or the `debug` option is not a boolean, or `get_fields` raises. */
  datatype StartupError =
    | FlagInvalid(option: string, flagError: BoolError)
    | FieldsFailed(fieldError: FieldError)

  /** What `main` does after reading its options: raise, exit with status 1, or start
      sampling the chosen interface with the field suffix (and the container loop
      when enabled). */
  datatype Launch =
    | Raised(error: StartupError)
    | Exit(code: int)
    | Run(nic: string, docker: bool, fields: string)

  /** The start-up of `main` in its order: the `[docker] enabled` and `debug` flags
      (`get_boolean`, each or-ed with its command-line switch), then `get_fields`;
      then the system interval and the container interval must be at least 3 seconds,
      and an interface must be found. */
  function Startup(cfgDocker: Result<bool, BoolError>, argDocker: bool, cfgDebug: Result<bool, BoolError>,
                   fields: Result<string, FieldError>, interval: int, dockerInterval: int,
                   requested: Option<string>, table: InterfaceTable, counters: set<string>): Launch
  {
    if cfgDocker.Err? then Raised(FlagInvalid("enabled", cfgDocker.error))
    else if cfgDebug.Err? then Raised(FlagInvalid("debug", cfgDebug.error))
    else if fields.Err? then Raised(FieldsFailed(fields.error))
    else if interval < 3 then Exit(1)
    else if dockerInterval < 3 then Exit(1)
    else
      var nic := SelectNic(requested, table, counters);
      if nic.None? || nic.value == "" then Exit(1)
      else Run(nic.value, cfgDocker.value || argDocker, fields.value)
  }

  /** Start-up raises exactly when a flag or `get_fields` does; otherwise it refuses
      exactly the short intervals and a missing interface; when it goes ahead, it
      measures an interface that has counters, namely the one named, or else the first
      10.x interface of the table, with the suffix `get_fields` built. */
  lemma StartupCases(cfgDocker: Result<bool, BoolError>, argDocker: bool, cfgDebug: Result<bool, BoolError>,
                     fields: Result<string, FieldError>, interval: int, dockerInterval: int,
                     requested: Option<string>, table: InterfaceTable, counters: set<string>)
    ensures var l := Startup(cfgDocker, argDocker, cfgDebug, fields, interval, dockerInterval,
                             requested, table, counters);
      && (l.Raised? <==> cfgDocker.Err? || cfgDebug.Err? || fields.Err?)
      && (fields.Err? && cfgDocker.Ok? && cfgDebug.Ok? ==> l == Raised(FieldsFailed(fields.error)))
      && (l.Exit? ==> l.code == 1)
      && (l.Exit? <==> (!l.Raised? && (interval < 3 || dockerInterval < 3 ||
                                        SelectNic(requested, table, counters) in {None, Some("")})))
      && (l.Run? ==> && Some(l.nic) == SelectNic(requested, table, counters)
                     && l.docker == (cfgDocker.value || argDocker)
                     && fields == Ok(l.fields))
  {
  }
  /** An `add-host-field` value that is not a boolean stops `main` with an exception
      from `get_fields`, before any interval or interface check, whatever the
      intervals and the interfaces are. */
  lemma HostFlagStopsStartup(cfg: Config, argDocker: bool, args: seq<string>, opts: seq<ConfigOption>,
                             argHost: bool, hostname: string, interval: int, dockerInterval: int,
                             requested: Option<string>, table: InterfaceTable, counters: set<string>,
                             v: string)
    requires GetBoolean(cfg, "docker", "enabled", false).Ok?
    requires GetBoolean(cfg, "statsd-agent", "debug", false).Ok?
    requires (forall k :: 0 <= k < |args| ==> Keyed(args[k])) && AllValued(opts)
    requires "statsd-agent" in cfg && "add-host-field" in cfg["statsd-agent"]
    requires cfg["statsd-agent"]["add-host-field"] == Some(v)
    requires Lower(v) !in BooleanStates
    ensures var flag := GetBoolean(cfg, "statsd-agent", "add-host-field", false);
      Startup(GetBoolean(cfg, "docker", "enabled", false), argDocker,
              GetBoolean(cfg, "statsd-agent", "debug", false),
              FieldSuffix(args, opts, flag, argHost, hostname),
              interval, dockerInterval, requested, table, counters)
      == Raised(FieldsFailed(HostFlagInvalid(NotABoolean(v))))
  {
    var flag := GetBoolean(cfg, "statsd-agent", "add-host-field", false);
    assert flag == Err(NotABoolean(v));
    ErrorCases(args, opts, flag, argHost, hostname);
  }
}
