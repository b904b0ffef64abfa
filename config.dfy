/**
 * The start-up configuration: loading `KEY=value` lines from a `.env` file into the process
 * environment, and checking that the variables each mode needs are present.
 */
module Config {
  import opened Wrappers
  import opened Errors
  import opened Seqs

  /** Needed in every mode. */
  const RequiredRuntimeEnv: seq<string> := ["ENV", "PORT", "APP_HOST", "AUTH_SIGNED_SECRET"]
  /** Needed as well when `ENV` is "dev". */
  const RequiredRuntimeEnvForDev: seq<string> := ["MYSQL_USER", "MYSQL_PASSWORD", "MYSQL_DATABASE", "MYSQL_ROOT_PASSWORD", "PORT"]
  /** Needed as well when `ENV` is "prod": every entry of the list is commented out. */
  const RequiredRuntimeEnvForProd: seq<string> := []

  const BaseMissing := "Missing required env var: "
  const DevMissing := "Missing required env var for dev mode: "
  const ProdMissing := "Missing required env var for prod mode: "
  const MissingDotEnv := "Missing .env file"
  const InvalidLine := "invalid line in .env file: "

  /** The process environment. */
  type Env = map<string, string>

  /** `os.Getenv`: the value, or "" for an unset variable. */
  function Getenv(env: Env, key: string): (v: string)
    ensures key !in env ==> v == ""
  {
    if key in env then env[key] else ""
  }

  /** What `os.Setenv` accepts: a non-empty key without '=' or NUL, and a value without NUL. */
  predicate Settable(key: string, value: string)
    ensures Settable(key, value) ==> |key| > 0 && (forall j :: 0 <= j < |key| ==> key[j] != '=' && key[j] != '\0')
    ensures Settable(key, value) ==> forall j :: 0 <= j < |value| ==> value[j] != '\0'
  {
    key != "" && '=' !in key && '\0' !in key && '\0' !in value
  }

  /** `os.Setenv`, whose error the loader ignores: a refused assignment leaves the environment as it was. */
  function Setenv(env: Env, key: string, value: string): (r: Env)
    ensures Settable(key, value) ==> Getenv(r, key) == value
    ensures !Settable(key, value) ==> r == env
    ensures forall k :: k != key ==> (k in r <==> k in env) && Getenv(r, k) == Getenv(env, k)
  {
    if Settable(key, value) then env[key := value] else env
  }

  /** What the loader does with one line. */
  datatype LineAction = Skip | Assign(key: string, value: string) | Invalid

  function IsEquals(c: char): bool { c == '=' }

  /**
   * One line of the file: empty lines and comments are skipped, a line without '=' is
   * invalid, the key `ENV` is skipped, and otherwise the line is split at its first '=',
   * neither side trimmed.
   */
  function ParseLine(line: string): (a: LineAction)
    ensures a.Invalid? <==> line != "" && line[0] != '#' && '=' !in line
    ensures a.Assign? ==> && line == a.key + "=" + a.value && '=' !in a.key
                          && a.key != "ENV" && line[0] != '#'
    ensures line == "" || line[0] == '#' ==> a.Skip?
  {
    if line == "" || line[0] == '#' then Skip
    else
      var k := FirstIndex(line, IsEquals);
      FirstIndexMiss(line, IsEquals);
      if k == |line| then Invalid
      else if line[..k] == "ENV" then Skip
      else
        assert line == line[..k] + "=" + line[k + 1..];
        assert forall j :: 0 <= j < k ==> line[..k][j] == line[j];
        Assign(line[..k], line[k + 1..])
  }

  /** The first '=' of `key + "=" + value` is the one after the key, when the key has none. */
  lemma FirstEquals(key: string, value: string)
    requires '=' !in key
    ensures FirstIndex(key + "=" + value, IsEquals) == |key|
    ensures (key + "=" + value)[..|key|] == key && (key + "=" + value)[|key| + 1..] == value
  {
    var line := key + "=" + value;
    assert line[|key|] == '=';
    assert forall j :: 0 <= j < |key| ==> line[j] == key[j];
  }

  /**
   * Splitting happens at the first '=' only: a key without '=' followed by '=' and any value,
   * '=' included, is assigned as it stands.
   */
  lemma ParseAssignment(key: string, value: string)
    requires key != "" && key[0] != '#' && '=' !in key && key != "ENV"
    ensures ParseLine(key + "=" + value) == Assign(key, value)
  {
    FirstEquals(key, value);
  }

  /** A key `ENV` on the left of the first '=' is never assigned. */
  lemma ParseEnvKeySkipped(value: string)
    ensures ParseLine("ENV=" + value) == Skip
  {
    var line := "ENV" + "=" + value;
    assert "ENV=" + value == line;
    assert '=' !in "ENV" by { assert forall j :: 0 <= j < 3 ==> "ENV"[j] != '='; }
    FirstEquals("ENV", value);
    assert line[0] == 'E';
  }

  /** Where the loader ends: the environment, and the panic message if it stopped with one. */
  datatype Loaded = Loaded(env: Env, panic: Option<string>)

  /**
   * The scanner loop: lines are applied in order, and an invalid line stops loading with
   * the assignments before it already made. `ENV` is never changed.
   */
  function Apply(env: Env, lines: seq<string>): (r: Loaded)
    ensures ("ENV" in r.env <==> "ENV" in env) && Getenv(r.env, "ENV") == Getenv(env, "ENV")
    ensures r.panic.Some? <==> exists i :: 0 <= i < |lines| && ParseLine(lines[i]).Invalid?
    decreases |lines|
  {
    if lines == [] then Loaded(env, None)
    else
      assert forall i :: 1 <= i < |lines| ==> lines[i] == lines[1..][i - 1];
      match ParseLine(lines[0])
      case Skip => Apply(env, lines[1..])
      case Invalid => Loaded(env, Some(InvalidLine + lines[0]))
      case Assign(k, v) => Apply(Setenv(env, k, v), lines[1..])
  }

  /** Loading two blocks of lines is loading the first, then, unless it stopped, the second. */
  lemma {:induction false} ApplyAppend(env: Env, a: seq<string>, b: seq<string>)
    ensures Apply(env, a + b) == if Apply(env, a).panic.Some? then Apply(env, a) else Apply(Apply(env, a).env, b)
    decreases |a|
  {
    if a == [] {
      assert a + b == b;
    } else {
      assert (a + b)[0] == a[0] && (a + b)[1..] == a[1..] + b;
      match ParseLine(a[0])
      case Skip => ApplyAppend(env, a[1..], b);
      case Invalid =>
      case Assign(k, v) => ApplyAppend(Setenv(env, k, v), a[1..], b);
    }
  }

  /** Lines that neither assign a key nor are invalid leave that key as it was. */
  lemma {:induction false} ApplyKeepsKey(env: Env, lines: seq<string>, key: string)
    requires forall i :: 0 <= i < |lines| ==> !ParseLine(lines[i]).Invalid?
    requires forall i :: 0 <= i < |lines| ==> !(ParseLine(lines[i]).Assign? && ParseLine(lines[i]).key == key)
    ensures Apply(env, lines).panic.None?
    ensures (key in Apply(env, lines).env <==> key in env) && Getenv(Apply(env, lines).env, key) == Getenv(env, key)
    decreases |lines|
  {
    if lines != [] {
      assert forall i :: 1 <= i < |lines| ==> lines[i] == lines[1..][i - 1];
      match ParseLine(lines[0])
      case Skip => ApplyKeepsKey(env, lines[1..], key);
      case Assign(k, v) => ApplyKeepsKey(Setenv(env, k, v), lines[1..], key);
    }
  }

  /** The last assignment to a key wins. */
  lemma LastAssignmentWins(env: Env, a: seq<string>, line: string, b: seq<string>)
    requires ParseLine(line).Assign? && Settable(ParseLine(line).key, ParseLine(line).value)
    requires Apply(env, a).panic.None?
    requires forall i :: 0 <= i < |b| ==> !ParseLine(b[i]).Invalid?
    requires forall i :: 0 <= i < |b| ==> !(ParseLine(b[i]).Assign? && ParseLine(b[i]).key == ParseLine(line).key)
    ensures Apply(env, a + [line] + b).panic.None?
    ensures Getenv(Apply(env, a + [line] + b).env, ParseLine(line).key) == ParseLine(line).value
  {
    var key := ParseLine(line).key;
    var mid := Apply(env, a).env;
    ApplyAppend(env, a + [line], b);
    ApplyAppend(env, a, [line]);
    ApplyKeepsKey(Setenv(mid, key, ParseLine(line).value), b, key);
  }

  /** An invalid line stops loading: nothing after it is applied. */
  lemma InvalidLineStops(env: Env, a: seq<string>, line: string, b: seq<string>)
    requires ParseLine(line).Invalid? && Apply(env, a).panic.None?
    ensures Apply(env, a + [line] + b) == Loaded(Apply(env, a).env, Some(InvalidLine + line))
  {
    ApplyAppend(env, a + [line], b);
    ApplyAppend(env, a, [line]);
  }

  /** `SetEnvFromFile`: a file that cannot be opened panics with the open error; otherwise its lines are applied. */
  function LoadFile(env: Env, file: Result<seq<string>, Error>): (r: Loaded)
    ensures file.Failure? ==> r == Loaded(env, Some(Text(file.error)))
    ensures file.Success? ==> r == Apply(env, file.value)
  {
    match file
    case Failure(err) => Loaded(env, Some(Text(err)))
    case Success(lines) => Apply(env, lines)
  }

  /**
   * One message per required key that is unset or empty, keys in list order. Stated from
   * the end so that it grows as the checking loop does.
   */
  function Missing(env: Env, keys: seq<string>, prefix: string): (errs: seq<string>)
    ensures |errs| <= |keys|
    decreases |keys|
  {
    if keys == [] then []
    else
      var last := keys[|keys| - 1];
      Missing(env, keys[..|keys| - 1], prefix) + (if Getenv(env, last) == "" then [prefix + last] else [])
  }

  /** A message is in the list exactly when its key is required and missing. */
  lemma {:induction false} MissingMembers(env: Env, keys: seq<string>, prefix: string, key: string)
    ensures prefix + key in Missing(env, keys, prefix) <==> key in keys && Getenv(env, key) == ""
    decreases |keys|
  {
    if keys != [] {
      var init, last := keys[..|keys| - 1], keys[|keys| - 1];
      MissingMembers(env, init, prefix, key);
      assert keys == init + [last];
      assert prefix + key == prefix + last ==> key == last by {
        if prefix + key == prefix + last {
          assert key == (prefix + key)[|prefix|..] && last == (prefix + last)[|prefix|..];
        }
      }
    }
  }

  /** No message exactly when every key of the list is set to something other than "". */
  lemma {:induction false} MissingEmptyWhenAllSet(env: Env, keys: seq<string>, prefix: string)
    ensures Missing(env, keys, prefix) == [] <==> forall i :: 0 <= i < |keys| ==> Getenv(env, keys[i]) != ""
    decreases |keys|
  {
    if keys != [] {
      var init := keys[..|keys| - 1];
      MissingEmptyWhenAllSet(env, init, prefix);
      assert forall i :: 0 <= i < |init| ==> init[i] == keys[i];
    }
  }

  /** The messages `CheckEnv` collects: the base list, then the list of the mode. */
  function MissingMessages(env: Env): (errs: seq<string>)
    ensures Getenv(env, "ENV") != "dev" ==> errs == Missing(env, RequiredRuntimeEnv, BaseMissing)
  {
    var base := Missing(env, RequiredRuntimeEnv, BaseMissing);
    var mode := Getenv(env, "ENV");
    if mode == "dev" then base + Missing(env, RequiredRuntimeEnvForDev, DevMissing)
    else if mode == "prod" then base + Missing(env, RequiredRuntimeEnvForProd, ProdMissing)
    else base
  }

  /** In dev mode a missing `PORT` is reported twice, once by each list. */
  lemma DevMissingPortTwice(env: Env)
    requires Getenv(env, "ENV") == "dev" && Getenv(env, "PORT") == ""
    ensures BaseMissing + "PORT" in MissingMessages(env)
    ensures DevMissing + "PORT" in MissingMessages(env)
  {
    MissingMembers(env, RequiredRuntimeEnv, BaseMissing, "PORT");
    MissingMembers(env, RequiredRuntimeEnvForDev, DevMissing, "PORT");
  }

  /** The total length of the parts, counting one separator after each of them. */
  function SeparatedLength(parts: seq<string>, sep: string): nat
    decreases |parts|
  {
    if parts == [] then 0 else |parts[0]| + |sep| + SeparatedLength(parts[1..], sep)
  }

  /** `strings.Join`: the parts in order, with the separator between each two of them. */
  function Join(parts: seq<string>, sep: string): (s: string)
    ensures |parts| == 0 ==> s == ""
    ensures |parts| == 1 ==> s == parts[0]
    ensures |parts| >= 2 ==> s == parts[0] + sep + Join(parts[1..], sep)
    decreases |parts|
  {
    if |parts| == 0 then ""
    else if |parts| == 1 then parts[0]
    else parts[0] + sep + Join(parts[1..], sep)
  }

  /** A join has one separator fewer than its parts: with one more separator it is as long as the parts, each followed by one. */
  lemma {:induction false} JoinLength(parts: seq<string>, sep: string)
    requires |parts| > 0
    ensures |Join(parts, sep)| + |sep| == SeparatedLength(parts, sep)
    decreases |parts|
  {
    if |parts| > 1 {
      JoinLength(parts[1..], sep);
    }
  }

  /** The `.env` file as `CheckEnv` finds it. */
  datatype DotEnv = Absent | Unreadable(err: Error) | Lines(lines: seq<string>)

  /**
   * `CheckEnv`: nothing when `DEBUG` is "true"; in dev and test mode the `.env` file must
   * exist and is loaded first; then a panic with every missing-variable message, joined by
   * newlines, exactly when there is one.
   */
  function CheckEnvSpec(env: Env, dotenv: DotEnv): (r: Loaded)
    ensures Getenv(env, "DEBUG") == "true" ==> r == Loaded(env, None)
    ensures Getenv(env, "DEBUG") != "true" && (Getenv(env, "ENV") == "dev" || Getenv(env, "ENV") == "test") && dotenv.Absent? ==>
              r == Loaded(env, Some(MissingDotEnv))
    ensures Getenv(env, "DEBUG") != "true" && Getenv(env, "ENV") != "dev" && Getenv(env, "ENV") != "test" ==>
              && r.env == env
              && (r.panic.Some? <==> MissingMessages(env) != [])
              && (r.panic.Some? ==> r.panic.value == Join(MissingMessages(env), "\n"))
    ensures Getenv(env, "DEBUG") != "true" && (Getenv(env, "ENV") == "dev" || Getenv(env, "ENV") == "test") && dotenv.Unreadable? ==>
              r == Loaded(env, Some(Text(dotenv.err)))
    ensures Getenv(env, "DEBUG") != "true" && (Getenv(env, "ENV") == "dev" || Getenv(env, "ENV") == "test") && dotenv.Lines? ==>
              if Apply(env, dotenv.lines).panic.Some? then r == Apply(env, dotenv.lines)
              else
                && r.env == Apply(env, dotenv.lines).env
                && (r.panic.Some? <==> MissingMessages(r.env) != [])
                && (r.panic.Some? ==> r.panic.value == Join(MissingMessages(r.env), "\n"))
    ensures Getenv(r.env, "ENV") == Getenv(env, "ENV")
  {
    if Getenv(env, "DEBUG") == "true" then Loaded(env, None)
    else
      var mode := Getenv(env, "ENV");
      var loaded :=
        if mode == "dev" || mode == "test" then
          match dotenv
          case Absent => Loaded(env, Some(MissingDotEnv))
          case Unreadable(err) => LoadFile(env, Failure(err))
          case Lines(lines) => LoadFile(env, Success(lines))
        else Loaded(env, None);
      if loaded.panic.Some? then loaded
      else
        var errs := MissingMessages(loaded.env);
        Loaded(loaded.env, if |errs| > 0 then Some(Join(errs, "\n")) else None)
  }

  /** In dev mode a `.env` file that sets every required variable passes the check. */
  lemma DevFileSatisfies(env: Env, lines: seq<string>)
    requires Getenv(env, "DEBUG") != "true" && Getenv(env, "ENV") == "dev"
    requires Apply(env, lines).panic.None?
    requires forall i :: 0 <= i < |RequiredRuntimeEnv| ==> Getenv(Apply(env, lines).env, RequiredRuntimeEnv[i]) != ""
    requires forall i :: 0 <= i < |RequiredRuntimeEnvForDev| ==> Getenv(Apply(env, lines).env, RequiredRuntimeEnvForDev[i]) != ""
    ensures CheckEnvSpec(env, Lines(lines)) == Loaded(Apply(env, lines).env, None)
  {
    var loaded := Apply(env, lines).env;
    MissingEmptyWhenAllSet(loaded, RequiredRuntimeEnv, BaseMissing);
    MissingEmptyWhenAllSet(loaded, RequiredRuntimeEnvForDev, DevMissing);
  }

  /** The process environment, changed in place. */
  class Environment {
    var vars: Env

    constructor (vars: Env)
      ensures this.vars == vars
    {
      this.vars := vars;
    }

    method Get(key: string) returns (v: string)
      ensures v == Getenv(vars, key)
    {
      v := if key in vars then vars[key] else "";
    }

    method Set(key: string, value: string) returns (ok: bool)
      modifies this
      ensures vars == Setenv(old(vars), key, value)
      ensures ok == Settable(key, value)
    {
      ok := key != "" && '=' !in key && '\0' !in key && '\0' !in value;
      if ok {
        vars := vars[key := value];
      }
    }

    /** `SetEnvFromFile`: the file's lines applied one by one; the panic message, if it stops with one. */
    method SetEnvFromFile(file: Result<seq<string>, Error>) returns (panic: Option<string>)
      modifies this
      ensures Loaded(vars, panic) == LoadFile(old(vars), file)
    {
      if file.Failure? {
        return Some(Text(file.error));
      }
      var lines := file.value;
      var i := 0;
      while i < |lines|
        invariant 0 <= i <= |lines|
        invariant Apply(vars, lines[i..]) == LoadFile(old(vars), file)
      {
        var line := lines[i];
        assert lines[i..][0] == line && lines[i..][1..] == lines[i + 1..];
        match ParseLine(line) {
          case Skip =>
          case Invalid =>
            return Some(InvalidLine + line);
          case Assign(key, value) =>
            var _ := Set(key, value);
        }
        i := i + 1;
      }
      return None;
    }

    /** The messages for the keys of one list that are unset or empty, in list order. */
    method CollectMissing(keys: seq<string>, prefix: string) returns (errs: seq<string>)
      ensures errs == Missing(vars, keys, prefix)
    {
      errs := [];
      for i := 0 to |keys|
        invariant errs == Missing(vars, keys[..i], prefix)
      {
        assert keys[..i + 1][..i] == keys[..i];
        var v := Get(keys[i]);
        if v == "" {
          errs := errs + [prefix + keys[i]];
        }
      }
      assert keys[..|keys|] == keys;
    }

    /** `CheckEnv`: the environment after it, and the panic message, if it ends with one. */
    method CheckEnv(dotenv: DotEnv) returns (panic: Option<string>)
      modifies this
      ensures Loaded(vars, panic) == CheckEnvSpec(old(vars), dotenv)
    {
      var debug := Get("DEBUG");
      if debug == "true" {
        return None;
      }
      var mode := Get("ENV");
      if mode == "dev" || mode == "test" {
        match dotenv {
          case Absent =>
            return Some(MissingDotEnv);
          case Unreadable(err) =>
            panic := SetEnvFromFile(Failure(err));
          case Lines(lines) =>
            panic := SetEnvFromFile(Success(lines));
        }
        if panic.Some? {
          return;
        }
      }
      var errs := CollectMissing(RequiredRuntimeEnv, BaseMissing);
      mode := Get("ENV");
      if mode == "dev" {
        var more := CollectMissing(RequiredRuntimeEnvForDev, DevMissing);
        errs := errs + more;
      } else if mode == "prod" {
        var more := CollectMissing(RequiredRuntimeEnvForProd, ProdMissing);
        errs := errs + more;
      }
      if |errs| > 0 {
        return Some(Join(errs, "\n"));
      }
      return None;
    }
  }
}
