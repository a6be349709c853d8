/** The tag suffix every metric name carries: `StatsdConfig.get_fields`
    (statsd-agent.py:281-317). Command-line `key=value` fields come first, then the
    options of the config file's `[fields]` section, then optionally `host=<hostname>`;
    the result is sanitised and prefixed with a comma. */
module Fields {

  import opened Wrappers
  import opened Text
  import opened Ints

  /** The placeholder an unedited config file carries as a field value. */
  const Placeholder := "<insert service"

  /** Why `get_fields` raises instead of returning: a command-line field without
      '=' (`ValueError` from unpacking `split('=', 1)`), a `[fields]` option written
      without a value, whose `None` value cannot be searched (`TypeError`), or an
      `add-host-field` option that `get_boolean` cannot read as a boolean. */
  datatype FieldError =
    | MalformedField(field: string)
    | OptionWithoutValue(option: string)
    | HostFlagInvalid(cause: BoolError)

  /** A config option as `options('fields')` lists it, with the value `get` returns. */
  type ConfigOption = (string, Option<string>)

  /** A command-line field that `split('=', 1)` can cut into a key and a value. */
  predicate Keyed(field: string) {
    '=' in field
  }

  /** The key of a `key=value` field: what comes before the first '='. */
  function KeyOf(field: string): string {
    match IndexOf(field, '=')
    case None => field
    case Some(i) => field[..i]
  }

  /** The fields collected so far and the set of their keys (`fields`, `field_set`). */
  datatype Acc = Acc(fields: seq<string>, seen: set<string>)

  const Start := Acc([], {})

  /** One command-line field: kept unless its key was already taken. */
  function AddArg(a: Acc, field: string): Acc {
    var k := KeyOf(field);
    if k in a.seen then a else Acc(a.fields + [field], a.seen + {k})
  }

  /** A config value that contributes nothing: empty, or still the placeholder. */
  predicate Skipped(value: string) {
    Contains(value, Placeholder) || value == ""
  }

  /** One config option: kept unless skipped or its key was already taken. */
  function AddOption(a: Acc, opt: string, value: string): Acc {
    if Contains(value, Placeholder) then a
    else if value != "" && opt !in a.seen then Acc(a.fields + [opt + "=" + value], a.seen + {opt})
    else a
  }

  function FoldArgs(a: Acc, args: seq<string>): Acc {
    if args == [] then a else AddArg(FoldArgs(a, args[..|args| - 1]), args[|args| - 1])
  }

  predicate AllValued(opts: seq<ConfigOption>) {
    forall k :: 0 <= k < |opts| ==> opts[k].1.Some?
  }

  function FoldOptions(a: Acc, opts: seq<ConfigOption>): Acc
    requires AllValued(opts)
  {
    if opts == [] then a
    else
      var last := opts[|opts| - 1];
      AddOption(FoldOptions(a, opts[..|opts| - 1]), last.0, last.1.value)
  }

  /** The first command-line field that has no '=', if any. */
  function ArgError(args: seq<string>): (e: Option<FieldError>)
    ensures e.None? <==> forall k :: 0 <= k < |args| ==> Keyed(args[k])
    ensures e.Some? ==> e.value.MalformedField? && !Keyed(e.value.field)
  {
    if args == [] then None
    else if !Keyed(args[0]) then Some(MalformedField(args[0]))
    else ArgError(args[1..])
  }

  /** The first `[fields]` option written without a value, if any. */
  function OptionError(opts: seq<ConfigOption>): (e: Option<FieldError>)
    ensures e.None? <==> AllValued(opts)
    ensures e.Some? ==> e.value.OptionWithoutValue?
  {
    if opts == [] then None
    else if opts[0].1.None? then Some(OptionWithoutValue(opts[0].0))
    else OptionError(opts[1..])
  }

  /** The first reason the source raises, in the order it meets them. */
  function FirstError(args: seq<string>, opts: seq<ConfigOption>): (e: Option<FieldError>)
    ensures e.None? <==> (forall k :: 0 <= k < |args| ==> Keyed(args[k])) && AllValued(opts)
  {
    if ArgError(args).Some? then ArgError(args) else OptionError(opts)
  }

  /** Whether `host=<hostname>` is appended: `cfg_flag or (arg_flag and 'host' not in field_set)`. */
  predicate AddsHost(seen: set<string>, cfgHost: bool, argHost: bool) {
    cfgHost || (argHost && "host" !in seen)
  }

  /** The list `get_fields` joins, before sanitising. */
  function FieldList(args: seq<string>, opts: seq<ConfigOption>, cfgHost: bool, argHost: bool,
                     hostname: string): Result<seq<string>, FieldError>
  {
    match FirstError(args, opts)
    case Some(e) => Err(e)
    case None =>
      var a := FoldOptions(FoldArgs(Start, args), opts);
      Ok(if AddsHost(a.seen, cfgHost, argHost) then a.fields + ["host=" + hostname] else a.fields)
  }

  /** `f.replace(',', '_').replace(' ', '_').replace('.', '-')`, one character at a time. */
  function SanitizeChar(c: char): char {
    if c == ',' || c == ' ' then '_' else if c == '.' then '-' else c
  }

  function Sanitize(f: string): (r: string)
    ensures |r| == |f|
    ensures forall k :: 0 <= k < |r| ==> r[k] !in {',', ' ', '.'}
    ensures forall k :: 0 <= k < |f| ==>
              && (f[k] == ',' || f[k] == ' ' ==> r[k] == '_')
              && (f[k] == '.' ==> r[k] == '-')
              && (f[k] != ',' && f[k] != ' ' && f[k] != '.' ==> r[k] == f[k])
  {
    seq(|f|, k requires 0 <= k < |f| => SanitizeChar(f[k]))
  }

  function SanitizeAll(fs: seq<string>): (r: seq<string>)
    ensures |r| == |fs|
  {
    seq(|fs|, k requires 0 <= k < |fs| => Sanitize(fs[k]))
  }

  /** The suffix built from a field list: joined by ',', then prefixed by ',' when
      non-empty and not already ending with ','. */
  function Render(fields: seq<string>): string {
    var s := Join(SanitizeAll(fields), ',');
    if s != [] && s[|s| - 1] != ',' then "," + s else s
  }

  /** `get_fields(arg_fields, arg_add_host_field)`, with the config file's `[fields]`
      options, what `get_boolean('add-host-field', default=False)` gives, and the host
      name as inputs. The flag is read after both loops, so their errors come first. */
  function FieldSuffix(args: seq<string>, opts: seq<ConfigOption>, cfgFlag: Result<bool, BoolError>,
                       argHost: bool, hostname: string): Result<string, FieldError>
  {
    if FirstError(args, opts).Some? then Err(FirstError(args, opts).value)
    else if cfgFlag.Err? then Err(HostFlagInvalid(cfgFlag.error))
    else Ok(Render(FieldList(args, opts, cfgFlag.value, argHost, hostname).value))
  }

  /** `get_fields` as the source writes it: the two loops that grow `fields` and
      `field_set`, the host decision, then sanitising, joining and the comma prefix. */
  method GetFields(args: seq<string>, opts: seq<ConfigOption>, cfgFlag: Result<bool, BoolError>,
                   argHost: bool, hostname: string) returns (r: Result<string, FieldError>)
    ensures r == FieldSuffix(args, opts, cfgFlag, argHost, hostname)
  {
    var collected := CollectArgs(args);
    if collected.Err? {
      return Err(collected.error);
    }
    collected := CollectOptions(collected.value, opts);
    if collected.Err? {
      return Err(collected.error);
    }
    if cfgFlag.Err? {
      return Err(HostFlagInvalid(cfgFlag.error));
    }
    var fields, fieldSet := collected.value.fields, collected.value.seen;
    if cfgFlag.value || (argHost && "host" !in fieldSet) {
      fields := fields + ["host=" + hostname];
    }
    assert Ok(fields) == FieldList(args, opts, cfgFlag.value, argHost, hostname);
    var s := Join(SanitizeAll(fields), ',');
    if s != [] && s[|s| - 1] != ',' {
      s := "," + s;
    }
    r := Ok(s);
  }

  /** The loop over the command-line fields (statsd-agent.py:285-291). */
  method CollectArgs(args: seq<string>) returns (r: Result<Acc, FieldError>)
    ensures ArgError(args).Some? ==> r == Err(ArgError(args).value)
    ensures ArgError(args).None? ==> r == Ok(FoldArgs(Start, args))
  {
    var fields: seq<string> := [];
    var fieldSet: set<string> := {};
    var i := 0;
    while i < |args|
      invariant i <= |args|
      invariant forall k :: 0 <= k < i ==> Keyed(args[k])
      invariant Acc(fields, fieldSet) == FoldArgs(Start, args[..i])
    {
      var field := args[i];
      var eq := IndexOf(field, '=');
      if eq.None? {
        ArgErrorAt(args, i);
        return Err(MalformedField(field));
      }
      var name := field[..eq.value];
      assert KeyOf(field) == name;
      ghost var before := Acc(fields, fieldSet);
      if name !in fieldSet {
        fields := fields + [field];
        fieldSet := fieldSet + {name};
      }
      assert Acc(fields, fieldSet) == AddArg(before, field);
      FoldArgsSnoc(args, i);
      i := i + 1;
    }
    assert args[..i] == args;
    r := Ok(Acc(fields, fieldSet));
  }

  /** The loop over the `[fields]` options (statsd-agent.py:298-309). */
  method CollectOptions(a: Acc, opts: seq<ConfigOption>) returns (r: Result<Acc, FieldError>)
    ensures OptionError(opts).Some? ==> r == Err(OptionError(opts).value)
    ensures OptionError(opts).None? ==> r == Ok(FoldOptions(a, opts))
  {
    var fields, fieldSet := a.fields, a.seen;
    var n := 0;
    while n < |opts|
      invariant n <= |opts|
      invariant AllValued(opts[..n])
      invariant Acc(fields, fieldSet) == FoldOptions(a, opts[..n])
    {
      var (option, value) := opts[n];
      if value.None? {
        OptionErrorAt(opts, n);
        return Err(OptionWithoutValue(option));
      }
      ghost var before := Acc(fields, fieldSet);
      if !Contains(value.value, Placeholder) {
        if value.value != "" && option !in fieldSet {
          fields := fields + [option + "=" + value.value];
          fieldSet := fieldSet + {option};
        }
      }
      assert Acc(fields, fieldSet) == AddOption(before, option, value.value);
      FoldOptionsSnoc(a, opts, n);
      n := n + 1;
    }
    assert opts[..n] == opts;
    r := Ok(Acc(fields, fieldSet));
  }

  lemma FoldArgsSnoc(args: seq<string>, i: nat)
    requires i < |args|
    ensures FoldArgs(Start, args[..i + 1]) == AddArg(FoldArgs(Start, args[..i]), args[i])
  {
    assert args[..i + 1][..i] == args[..i];
  }

  lemma FoldOptionsSnoc(a: Acc, opts: seq<ConfigOption>, n: nat)
    requires n < |opts| && AllValued(opts[..n]) && opts[n].1.Some?
    ensures AllValued(opts[..n + 1])
    ensures FoldOptions(a, opts[..n + 1]) == AddOption(FoldOptions(a, opts[..n]), opts[n].0, opts[n].1.value)
  {
    assert opts[..n + 1] == opts[..n] + [opts[n]];
  }

  lemma {:induction false} ArgErrorAt(args: seq<string>, i: nat)
    requires i < |args| && !Keyed(args[i])
    requires forall k :: 0 <= k < i ==> Keyed(args[k])
    ensures ArgError(args) == Some(MalformedField(args[i]))
  {
    if i > 0 {
      ArgErrorAt(args[1..], i - 1);
    }
  }

  lemma {:induction false} OptionErrorAt(opts: seq<ConfigOption>, n: nat)
    requires n < |opts| && opts[n].1.None? && AllValued(opts[..n])
    ensures OptionError(opts) == Some(OptionWithoutValue(opts[n].0))
  {
    if n > 0 {
      var tail := opts[1..][..n - 1];
      assert AllValued(tail) by {
        forall k | 0 <= k < |tail| ensures tail[k].1.Some? {
          assert tail[k] == opts[..n][k + 1];
        }
      }
      OptionErrorAt(opts[1..], n - 1);
    }
  }

  // ---------------------------------------------------------------------------
  // What the collected list is, stated without the running `field_set`.

  /** The keys of a list of fields. */
  function KeySet(fs: seq<string>): set<string> {
    set k | 0 <= k < |fs| :: KeyOf(fs[k])
  }

  /** No two fields share a key. */
  predicate DistinctKeys(fs: seq<string>) {
    forall i, j :: 0 <= i < j < |fs| ==> KeyOf(fs[i]) != KeyOf(fs[j])
  }

  /** Field i is the first command-line field with its key. */
  predicate FirstOfItsKey(args: seq<string>, i: nat)
    requires i < |args|
  {
    forall j :: 0 <= j < i ==> KeyOf(args[j]) != KeyOf(args[i])
  }

  /** The command-line fields that are the first with their key, in order. */
  function FirstsOf(args: seq<string>): seq<string> {
    if args == [] then []
    else FirstsOf(args[..|args| - 1]) + (if FirstOfItsKey(args, |args| - 1) then [args[|args| - 1]] else [])
  }

  /** A config option that yields a field when `taken` holds the keys used so far. */
  predicate Admissible(o: ConfigOption, taken: set<string>)
    requires o.1.Some?
  {
    !Skipped(o.1.value) && o.0 !in taken
  }

  /** The fields the config options yield, in order, when the keys in `taken` are used. */
  function Accepted(opts: seq<ConfigOption>, taken: set<string>): seq<string>
    requires AllValued(opts)
  {
    if opts == [] then []
    else
      var last := opts[|opts| - 1];
      Accepted(opts[..|opts| - 1], taken)
        + (if Admissible(last, taken) then [last.0 + "=" + last.1.value] else [])
  }

  /** Option names as `RawConfigParser` delivers them: distinct, and without '='
      (the parser splits an option line at its first '=' or ':'). */
  predicate WellFormedOptions(opts: seq<ConfigOption>) {
    && (forall k :: 0 <= k < |opts| ==> '=' !in opts[k].0)
    && (forall i, j :: 0 <= i < j < |opts| ==> opts[i].0 != opts[j].0)
  }

  lemma KeyOfJoined(opt: string, value: string)
    requires '=' !in opt
    ensures KeyOf(opt + "=" + value) == opt
  {
    var f := opt + "=" + value;
    assert f[|opt|] == '=';
    var i := IndexOf(f, '=').value;
    assert forall t :: 0 <= t < i ==> f[..i][t] == f[t];
    assert forall t :: 0 <= t < |opt| ==> f[t] == opt[t];
    assert i == |opt|;
    assert f[..|opt|] == opt;
  }

  lemma KeySetSnoc(fs: seq<string>, n: nat)
    requires n < |fs|
    ensures KeySet(fs[..n + 1]) == KeySet(fs[..n]) + {KeyOf(fs[n])}
  {
    var init := fs[..n];
    var all := fs[..n + 1];
    forall key | key in KeySet(all) ensures key in KeySet(init) + {KeyOf(fs[n])} {
      var j :| 0 <= j < |all| && KeyOf(all[j]) == key;
      if j < n { assert init[j] == all[j]; }
    }
    forall key | key in KeySet(init) ensures key in KeySet(all) {
      var j :| 0 <= j < |init| && KeyOf(init[j]) == key;
      assert all[j] == init[j];
    }
  }

  /** The last field is the first of its key exactly when no earlier field has its key. */
  lemma FirstOfItsKeyLast(args: seq<string>)
    requires args != []
    ensures var n := |args| - 1; FirstOfItsKey(args, n) <==> KeyOf(args[n]) !in KeySet(args[..n])
  {
    var n := |args| - 1;
    var init := args[..n];
    if KeyOf(args[n]) in KeySet(init) {
      var j :| 0 <= j < |init| && KeyOf(init[j]) == KeyOf(args[n]);
      assert args[j] == init[j];
    } else {
      forall j | 0 <= j < n ensures KeyOf(args[j]) != KeyOf(args[n]) {
        assert args[j] == init[j];
        assert KeyOf(init[j]) in KeySet(init);
      }
    }
  }

  /** The command-line loop keeps exactly the first field of each key, in order,
      and records the keys of all of them. */
  lemma {:induction false} ArgFieldsAreFirsts(args: seq<string>)
    ensures FoldArgs(Start, args) == Acc(FirstsOf(args), KeySet(args))
  {
    if args != [] {
      var n := |args| - 1;
      ArgFieldsAreFirsts(args[..n]);
      FirstOfItsKeyLast(args);
      KeySetSnoc(args, n);
      assert args[..n + 1] == args;
    }
  }

  /** The config loop appends exactly the admissible options to what the command
      line produced; its keys only grow by option names. */
  lemma {:induction false} OptionFieldsAreAccepted(a: Acc, opts: seq<ConfigOption>)
    requires AllValued(opts) && WellFormedOptions(opts)
    ensures FoldOptions(a, opts).fields == a.fields + Accepted(opts, a.seen)
    ensures a.seen <= FoldOptions(a, opts).seen <= a.seen + set k | 0 <= k < |opts| :: opts[k].0
  {
    if opts != [] {
      var n := |opts| - 1;
      var init := opts[..n];
      var last := opts[n];
      assert AllValued(init) by {
        forall k | 0 <= k < |init| ensures init[k].1.Some? { assert init[k] == opts[k]; }
      }
      assert WellFormedOptions(init) by {
        forall k | 0 <= k < |init| ensures '=' !in init[k].0 { assert init[k] == opts[k]; }
        forall i, j | 0 <= i < j < |init| ensures init[i].0 != init[j].0 {
          assert init[i] == opts[i] && init[j] == opts[j];
        }
      }
      OptionFieldsAreAccepted(a, init);
      var b := FoldOptions(a, init);
      assert FoldOptions(a, opts) == AddOption(b, last.0, last.1.value);
      assert Accepted(opts, a.seen) == Accepted(init, a.seen)
        + (if Admissible(last, a.seen) then [last.0 + "=" + last.1.value] else []);
      assert Admissible(last, a.seen) <==> !Skipped(last.1.value) && last.0 !in b.seen;
    }
  }

  /** Keys stay distinct and `field_set` is exactly the set of keys collected. */
  predicate Coherent(a: Acc) {
    a.seen == KeySet(a.fields) && DistinctKeys(a.fields) && forall k :: 0 <= k < |a.fields| ==> Keyed(a.fields[k])
  }

  lemma AddArgCoherent(a: Acc, field: string)
    requires Coherent(a) && Keyed(field)
    ensures Coherent(AddArg(a, field))
  {
    var r := AddArg(a, field);
    if KeyOf(field) !in a.seen {
      assert r.fields[|a.fields|] == field;
      forall key | key in KeySet(r.fields) ensures key in a.seen + {KeyOf(field)} {
        var j :| 0 <= j < |r.fields| && KeyOf(r.fields[j]) == key;
        if j < |a.fields| { assert r.fields[j] == a.fields[j]; }
      }
      forall key | key in a.seen ensures key in KeySet(r.fields) {
        var j :| 0 <= j < |a.fields| && KeyOf(a.fields[j]) == key;
        assert r.fields[j] == a.fields[j];
      }
    }
  }

  lemma AddOptionCoherent(a: Acc, opt: string, value: string)
    requires Coherent(a) && '=' !in opt
    ensures Coherent(AddOption(a, opt, value))
  {
    var r := AddOption(a, opt, value);
    var f := opt + "=" + value;
    if r != a {
      KeyOfJoined(opt, value);
      assert Keyed(f) by { assert f[|opt|] == '='; }
      assert r == AddArg(a, f);
      AddArgCoherent(a, f);
    }
  }

  lemma {:induction false} FoldArgsCoherent(args: seq<string>)
    requires forall k :: 0 <= k < |args| ==> Keyed(args[k])
    ensures Coherent(FoldArgs(Start, args))
  {
    if args != [] {
      var n := |args| - 1;
      FoldArgsCoherent(args[..n]);
      assert args[..n][0..] == args[..n];
      AddArgCoherent(FoldArgs(Start, args[..n]), args[n]);
    }
  }

  lemma {:induction false} FoldOptionsCoherent(a: Acc, opts: seq<ConfigOption>)
    requires Coherent(a) && AllValued(opts) && WellFormedOptions(opts)
    ensures Coherent(FoldOptions(a, opts))
  {
    if opts != [] {
      var n := |opts| - 1;
      var init := opts[..n];
      assert AllValued(init) by {
        forall k | 0 <= k < |init| ensures init[k].1.Some? { assert init[k] == opts[k]; }
      }
      assert WellFormedOptions(init) by {
        forall k | 0 <= k < |init| ensures '=' !in init[k].0 { assert init[k] == opts[k]; }
        forall i, j | 0 <= i < j < |init| ensures init[i].0 != init[j].0 {
          assert init[i] == opts[i] && init[j] == opts[j];
        }
      }
      FoldOptionsCoherent(a, init);
      AddOptionCoherent(FoldOptions(a, init), opts[n].0, opts[n].1.value);
    }
  }

  /** What `get_fields` collects before sanitising: the first command-line field of
      each key, in order; then, in order, every config option whose value is neither
      empty nor the placeholder and whose key the command line did not use; then
      `host=<hostname>` when the config flag is on, or when the command-line flag is on
      and no collected field has the key `host`. Keys are distinct before the host
      field; the host field can repeat `host` only through the config flag. */
  lemma FieldListContents(args: seq<string>, opts: seq<ConfigOption>, cfgHost: bool,
                          argHost: bool, hostname: string)
    requires FirstError(args, opts).None? && WellFormedOptions(opts)
    ensures var base := FirstsOf(args) + Accepted(opts, KeySet(args));
      && DistinctKeys(base)
      && FieldList(args, opts, cfgHost, argHost, hostname)
         == Ok(if cfgHost || (argHost && "host" !in KeySet(base)) then base + ["host=" + hostname] else base)
  {
    ArgFieldsAreFirsts(args);
    OptionFieldsAreAccepted(FoldArgs(Start, args), opts);
    FoldArgsCoherent(args);
    FoldOptionsCoherent(FoldArgs(Start, args), opts);
  }

  /** Without the config flag the keys of the result are all distinct: the
      command-line flag adds `host` only when no field has that key. */
  lemma DistinctWithoutConfigHost(args: seq<string>, opts: seq<ConfigOption>, argHost: bool, hostname: string)
    requires FirstError(args, opts).None? && WellFormedOptions(opts)
    ensures DistinctKeys(FieldList(args, opts, false, argHost, hostname).value)
  {
    FieldListContents(args, opts, false, argHost, hostname);
    var base := FirstsOf(args) + Accepted(opts, KeySet(args));
    if argHost && "host" !in KeySet(base) {
      HostKey(hostname);
      AppendFreshKey(base, "host=" + hostname);
    }
  }

  /** Appending a field whose key is new keeps the keys distinct. */
  lemma AppendFreshKey(base: seq<string>, f: string)
    requires DistinctKeys(base) && KeyOf(f) !in KeySet(base)
    ensures DistinctKeys(base + [f])
  {
    var fs := base + [f];
    forall i, j | 0 <= i < j < |fs| ensures KeyOf(fs[i]) != KeyOf(fs[j]) {
      assert fs[i] == base[i];
      if j == |base| {
        assert fs[j] == f;
        assert KeyOf(base[i]) in KeySet(base);
      } else {
        assert fs[j] == base[j];
      }
    }
  }

  /** With the config flag on, `host` is appended even when a command-line field
      already has that key, so the result then holds two `host` fields. */
  lemma ConfigHostRepeats(args: seq<string>, opts: seq<ConfigOption>, argHost: bool, hostname: string, k: nat)
    requires FirstError(args, opts).None? && WellFormedOptions(opts)
    requires k < |args| && KeyOf(args[k]) == "host"
    ensures var fs := FieldList(args, opts, true, argHost, hostname).value;
      exists i, j :: 0 <= i < j < |fs| && KeyOf(fs[i]) == "host" && KeyOf(fs[j]) == "host"
  {
    FieldListContents(args, opts, true, argHost, hostname);
    ArgFieldsAreFirsts(args);
    FoldArgsCoherent(args);
    var firsts := FirstsOf(args);
    assert KeyOf(args[k]) in KeySet(args);
    assert "host" in KeySet(firsts);
    var i :| 0 <= i < |firsts| && KeyOf(firsts[i]) == "host";
    HostKey(hostname);
    RepeatedHostWitness(firsts, Accepted(opts, KeySet(args)), "host=" + hostname, i);
  }

  lemma HostKey(hostname: string)
    ensures KeyOf("host=" + hostname) == "host"
  {
    KeyOfJoined("host", hostname);
    assert "host" + "=" + hostname == "host=" + hostname;
  }

  lemma RepeatedHostWitness(firsts: seq<string>, rest: seq<string>, h: string, i: nat)
    requires i < |firsts| && KeyOf(firsts[i]) == "host" && KeyOf(h) == "host"
    ensures var fs := firsts + rest + [h];
      exists i, j :: 0 <= i < j < |fs| && KeyOf(fs[i]) == "host" && KeyOf(fs[j]) == "host"
  {
    var fs := firsts + rest + [h];
    assert fs[i] == firsts[i] && fs[|fs| - 1] == h;
  }

  /** `get_fields` raises exactly when a command-line field has no '=', a `[fields]`
      option has no value, or the `add-host-field` option is not a boolean; a bad
      command-line field is reported first and the flag last. */
  lemma ErrorCases(args: seq<string>, opts: seq<ConfigOption>, cfgFlag: Result<bool, BoolError>,
                   argHost: bool, hostname: string)
    ensures FieldSuffix(args, opts, cfgFlag, argHost, hostname).Err?
            <==> (exists k :: 0 <= k < |args| && !Keyed(args[k])) || !AllValued(opts) || cfgFlag.Err?
    ensures (exists k :: 0 <= k < |args| && !Keyed(args[k])) ==>
            FieldSuffix(args, opts, cfgFlag, argHost, hostname).error.MalformedField?
    ensures (forall k :: 0 <= k < |args| ==> Keyed(args[k])) && AllValued(opts) && cfgFlag.Err? ==>
            FieldSuffix(args, opts, cfgFlag, argHost, hostname) == Err(HostFlagInvalid(cfgFlag.error))
  {
  }

  // ---------------------------------------------------------------------------
  // The rendered suffix.

  /** None of the characters of s is in bad. */
  predicate Avoids(s: string, bad: set<char>) {
    forall k :: 0 <= k < |s| ==> s[k] !in bad
  }

  lemma {:induction false} JoinAvoids(parts: seq<string>, sep: char, bad: set<char>)
    requires sep !in bad && forall k :: 0 <= k < |parts| ==> Avoids(parts[k], bad)
    ensures Avoids(Join(parts, sep), bad)
  {
    if |parts| > 1 {
      JoinAvoids(parts[1..], sep, bad);
      var rest := Join(parts[1..], sep);
      var j := Join(parts, sep);
      assert j == parts[0] + [sep] + rest;
      forall k | 0 <= k < |j| ensures j[k] !in bad {
        if k < |parts[0]| { assert j[k] == parts[0][k]; }
        else if k > |parts[0]| { assert j[k] == rest[k - |parts[0]| - 1]; }
      }
    }
  }

  lemma {:induction false} JoinEndsWithLast(parts: seq<string>, sep: char)
    requires parts != [] && parts[|parts| - 1] != []
    ensures var j := Join(parts, sep); var l := parts[|parts| - 1];
      j != [] && j[|j| - 1] == l[|l| - 1]
  {
    if |parts| > 1 {
      JoinEndsWithLast(parts[1..], sep);
    }
  }

  /** What joining and splitting need of the sanitised fields: none is empty and
      none holds a comma, a space or a dot. */
  lemma SanitizedPieces(fields: seq<string>)
    requires forall k :: 0 <= k < |fields| ==> fields[k] != []
    ensures var parts := SanitizeAll(fields);
      forall k :: 0 <= k < |parts| ==> parts[k] != [] && ',' !in parts[k] && Avoids(parts[k], {' ', '.'})
  {
    var parts := SanitizeAll(fields);
    forall k | 0 <= k < |parts|
      ensures parts[k] != [] && ',' !in parts[k] && Avoids(parts[k], {' ', '.'})
    {
      var p := parts[k];
      assert p == Sanitize(fields[k]);
      assert forall i :: 0 <= i < |p| ==> p[i] !in {',', ' ', '.'};
    }
  }

  /** The suffix is empty exactly when there are no fields; otherwise it is ',' and
      the sanitised fields, so that cutting it at its commas gives the sanitised fields
      back one by one; it holds neither spaces nor dots. */
  lemma RenderShape(fields: seq<string>)
    requires forall k :: 0 <= k < |fields| ==> fields[k] != []
    ensures Render(fields) == [] <==> fields == []
    ensures fields != [] ==> Render(fields)[0] == ',' && Split(Render(fields)[1..], ',') == SanitizeAll(fields)
    ensures Avoids(Render(fields), {' ', '.'})
  {
    var parts := SanitizeAll(fields);
    SanitizedPieces(fields);
    if fields != [] {
      JoinEndsWithLast(parts, ',');
      var j := Join(parts, ',');
      assert Render(fields) == "," + j;
      assert Render(fields)[1..] == j;
      SplitJoin(parts, ',');
      JoinAvoids(parts, ',', {' ', '.'});
    }
  }

  /** The whole of `get_fields` on its success path: the suffix is empty exactly when
      nothing was collected, and otherwise is ',' followed by the collected fields,
      sanitised, one per comma-separated piece. */
  lemma SuffixShape(args: seq<string>, opts: seq<ConfigOption>, cfgHost: bool, argHost: bool,
                    hostname: string)
    requires FirstError(args, opts).None?
    ensures var fs := FieldList(args, opts, cfgHost, argHost, hostname).value;
      var s := FieldSuffix(args, opts, Ok(cfgHost), argHost, hostname).value;
      && (s == [] <==> fs == [])
      && (fs != [] ==> s[0] == ',' && Split(s[1..], ',') == SanitizeAll(fs))
      && Avoids(s, {' ', '.'})
  {
    FoldArgsCoherent(args);
    var a := FoldArgs(Start, args);
    FoldOptionsKeyed(a, opts);
    var b := FoldOptions(a, opts);
    var fs := FieldList(args, opts, cfgHost, argHost, hostname).value;
    var h := "host=" + hostname;
    assert Keyed(h) by { assert h[4] == '='; }
    assert fs == b.fields || fs == b.fields + [h];
    forall k | 0 <= k < |fs| ensures fs[k] != [] {
      if k < |b.fields| {
        assert fs[k] == b.fields[k] && Keyed(b.fields[k]);
      } else {
        assert fs[k] == h;
      }
    }
    RenderShape(fs);
  }

  lemma {:induction false} FoldOptionsKeyed(a: Acc, opts: seq<ConfigOption>)
    requires AllValued(opts) && forall k :: 0 <= k < |a.fields| ==> Keyed(a.fields[k])
    ensures forall k :: 0 <= k < |FoldOptions(a, opts).fields| ==> Keyed(FoldOptions(a, opts).fields[k])
  {
    if opts != [] {
      var n := |opts| - 1;
      var init := opts[..n];
      assert AllValued(init) by {
        forall k | 0 <= k < |init| ensures init[k].1.Some? { assert init[k] == opts[k]; }
      }
      FoldOptionsKeyed(a, init);
      var f := opts[n].0 + "=" + opts[n].1.value;
      assert Keyed(f) by { assert f[|opts[n].0|] == '='; }
      var b := FoldOptions(a, init);
      var r := FoldOptions(a, opts);
      assert r == AddOption(b, opts[n].0, opts[n].1.value);
      assert r.fields == b.fields || r.fields == b.fields + [f];
      forall k | 0 <= k < |r.fields| ensures Keyed(r.fields[k]) {
        if k < |b.fields| {
          assert r.fields[k] == b.fields[k] && Keyed(b.fields[k]);
        } else {
          assert r.fields[k] == f;
        }
      }
    }
  }
}
