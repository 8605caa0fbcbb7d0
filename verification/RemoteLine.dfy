/** The remote command line of src/runner.rs: `cd DIR && [KEY=VALUE...] CARGO [+TC] WORDS...`. */
module RemoteLine {
  import opened Bytes
  import opened Shell
  import opened ShellQuote

  datatype Invocation = Invocation(rustflags: Option<string>, env: seq<string>, remoteDir: string,
                                   cargoPath: string, toolchain: Option<string>)

  // ----- the printer -----

  predicate HasPrefix(s: string, p: string)
  {
    |s| >= |p| && s[..|p|] == p
  }

  /** What follows `~/` or `$HOME/`. */
  function HomeRest(path: string): Option<string>
  {
    if HasPrefix(path, "~/") then Some(path[2..])
    else if HasPrefix(path, "$HOME/") then Some(path[6..])
    else None
  }

  function QuoteRemotePath(path: string): string
  {
    if path == "~" || path == "$HOME" then "\"$HOME\""
    else
      match HomeRest(path)
      case Some(rest) => "\"$HOME\"/" + Quote(rest)
      case None => Quote(path)
  }

  /** `split_once('=')`: the index of the first `=`, or the length. */
  function EqAt(kv: string): (i: nat)
    ensures i <= |kv|
  {
    if kv == "" || kv[0] == '=' then 0 else 1 + EqAt(kv[1..])
  }

  predicate ValidEntry(kv: string)
  {
    EqAt(kv) < |kv| && IsName(kv[..EqAt(kv)])
  }

  function Binding(kv: string): (string, string)
    requires ValidEntry(kv)
  {
    (kv[..EqAt(kv)], kv[EqAt(kv) + 1..])
  }

  function AssignText(b: (string, string)): string
  {
    b.0 + "=" + Quote(b.1)
  }

  /** The entry gives `value` to the variable `key`. */
  predicate IsPair(kv: string, key: string, value: string)
  {
    IsName(key) && kv == key + "=" + value
  }

  ghost predicate IsEntry(kv: string)
  {
    exists key, value :: IsPair(kv, key, value)
  }

  lemma {:induction false} EqAtAfter(key: string, value: string)
    requires '=' !in key
    ensures EqAt(key + "=" + value) == |key|
  {
    var kv := key + "=" + value;
    if key != "" {
      assert key[0] in key && kv[0] == key[0] && kv[1..] == key[1..] + "=" + value;
      EqAtAfter(key[1..], value);
    }
  }

  lemma {:induction false} EqAtIs(kv: string)
    requires EqAt(kv) < |kv|
    ensures kv == kv[..EqAt(kv)] + "=" + kv[EqAt(kv) + 1..]
  {
    if kv[0] != '=' {
      EqAtIs(kv[1..]);
      assert kv == [kv[0]] + kv[1..];
    }
  }

  /** A name has no `=`, so an entry gives one value to one variable. */
  lemma PairIs(kv: string, key: string, value: string)
    requires IsPair(kv, key, value)
    ensures ValidEntry(kv) && Binding(kv) == (key, value)
  {
    assert '=' !in key by {
      assert forall i | 0 <= i < |key| :: NameChar(key[i]);
    }
    EqAtAfter(key, value);
    assert kv[..|key|] == key && kv[|key| + 1..] == value;
  }

  lemma EntryIs(kv: string)
    ensures ValidEntry(kv) <==> IsEntry(kv)
    ensures ValidEntry(kv) ==> IsPair(kv, Binding(kv).0, Binding(kv).1)
  {
    if ValidEntry(kv) {
      EqAtIs(kv);
      assert IsPair(kv, Binding(kv).0, Binding(kv).1);
    }
    if key, value :| IsPair(kv, key, value) {
      PairIs(kv, key, value);
    }
  }

  lemma PairIsUnique(kv: string, k1: string, v1: string, k2: string, v2: string)
    requires IsPair(kv, k1, v1) && IsPair(kv, k2, v2)
    ensures k1 == k2 && v1 == v2
  {
    PairIs(kv, k1, v1);
    PairIs(kv, k2, v2);
  }

  method PushEnvPrefix(parts: seq<string>, env: seq<string>) returns (r: Result<seq<string>>)
    ensures r.Ok? <==> forall kv <- env :: IsEntry(kv)
    ensures r.Ok? ==> |r.value| == |parts| + |env| && r.value[..|parts|] == parts
    ensures r.Ok? ==> forall i, key, value | 0 <= i < |env| && IsPair(env[i], key, value) ::
                        r.value[|parts| + i] == key + "=" + Quote(value)
  {
    hide EqAt, Quote;
    forall kv ensures ValidEntry(kv) <==> IsEntry(kv) {
      EntryIs(kv);
    }
    forall kv, key, value | IsPair(kv, key, value) ensures ValidEntry(kv) && Binding(kv) == (key, value) {
      PairIs(kv, key, value);
    }
    var out := parts;
    for i := 0 to |env|
      invariant forall j | 0 <= j < i :: ValidEntry(env[j])
      invariant |out| == |parts| + i && out[..|parts|] == parts
      invariant forall j | 0 <= j < i :: out[|parts| + j] == AssignText(Binding(env[j]))
    {
      var kv := env[i];
      var eq := EqAt(kv);
      if eq == |kv| {
        assert kv in env;
        return Err("invalid env entry: expected KEY=VALUE");
      }
      var key, value := kv[..eq], kv[eq + 1..];
      if !IsName(key) {
        assert kv in env;
        return Err("invalid env variable name");
      }
      out := out + [key + "=" + Quote(value)];
    }
    return Ok(out);
  }

  /** The environment a line is meant to set, in order. */
  function Bindings(inv: Invocation): (bs: seq<(string, string)>)
    requires forall kv <- inv.env :: ValidEntry(kv)
    ensures |bs| == |inv.env| + if inv.rustflags.Some? then 1 else 0
  {
    (match inv.rustflags case Some(rf) => [("RUSTFLAGS", rf)] case None => []) +
    seq(|inv.env|, i requires 0 <= i < |inv.env| => assert inv.env[i] in inv.env; Binding(inv.env[i]))
  }

  function CargoProgram(inv: Invocation): string
  {
    QuoteRemotePath(inv.cargoPath) +
    match inv.toolchain case Some(tc) => " +" + Quote(tc) case None => ""
  }

  /** `remote_cargo_words`. */
  method RemoteCargoWords(inv: Invocation, words: seq<string>, home: string) returns (r: Result<string>)
    ensures r.Ok? <==> forall kv <- inv.env :: IsEntry(kv)
    ensures r.Ok? ==> IsLine(inv, words, r.value)
    ensures r.Ok? && Printable(inv, words) ==>
              (IsMeant(Commands(r.value, home), inv, words, home) <==>
               !(inv.rustflags.None? && inv.env == [] && ReservedText(inv.cargoPath)))
  {
    hide Lex, Quote, JoinWith, AndList, Simple, Reserved, EqAt;
    var parts: seq<string> := [];
    if inv.rustflags.Some? {
      parts := parts + ["RUSTFLAGS=" + Quote(inv.rustflags.value)];
    }
    var all := PushEnvPrefix(parts, inv.env);
    if all.Err? {
      return Err(all.message);
    }
    parts := all.value;
    var cargo := CargoProgram(inv);
    var env := if parts == [] then "" else JoinWith(parts) + " ";
    var line := "cd " + QuoteRemotePath(inv.remoteDir) + " && " + env + cargo + " " + ShellJoin(words);
    assert PartsText(inv, parts);
    if Printable(inv, words) {
      forall kv <- inv.env ensures ValidEntry(kv) { EntryIs(kv); }
      PartsAre(inv, parts);
      LineReadsBack(inv, words, home, parts, line);
      MeantIs(inv, words, home, Commands(line, home));
    }
    return Ok(line);
  }

  // ----- what the line means -----

  /** `is_valid_cargo_path`. */
  predicate ValidCargoPath(path: string)
  {
    PathWord(match HomeRest(path) case Some(rest) => rest case None => path)
  }

  predicate PathWord(rest: string)
  {
    rest != "" && rest[0] != '-' && forall i | 0 <= i < |rest| :: PathChar(rest[i])
  }

  predicate Printable(inv: Invocation, words: seq<string>)
  {
    && (forall kv <- inv.env :: NulFree(kv))
    && (inv.rustflags.Some? ==> NulFree(inv.rustflags.value))
    && (inv.toolchain.Some? ==> NulFree(inv.toolchain.value))
    && NulFree(inv.remoteDir)
    && ValidCargoPath(inv.cargoPath)
    && forall w <- words :: NulFree(w)
  }

  /** Printable, and the environment is accepted. */
  predicate Ready(inv: Invocation, words: seq<string>)
  {
    Printable(inv, words) && forall kv <- inv.env :: ValidEntry(kv)
  }

  /** A path with its leading `~` or `$HOME` replaced by the home directory. */
  function Expanded(path: string, home: string): string
  {
    if path == "~" || path == "$HOME" then home
    else match HomeRest(path) case Some(rest) => home + "/" + rest case None => path
  }

  /** The two commands that are meant. */
  function Intended(inv: Invocation, words: seq<string>, home: string): seq<Command>
    requires forall kv <- inv.env :: ValidEntry(kv)
  {
    [Command([], ["cd", Expanded(inv.remoteDir, home)]),
     Command(Bindings(inv), [Expanded(inv.cargoPath, home)] +
                            (match inv.toolchain case Some(tc) => ["+" + tc] case None => []) +
                            words)]
  }

  /** The word that a path stands for: only a leading `~` or `$HOME` is expanded. */
  ghost predicate StandsFor(path: string, word: string, home: string)
  {
    && (path == "~" || path == "$HOME" ==> word == home)
    && (forall rest :: path == "~/" + rest || path == "$HOME/" + rest ==> word == home + "/" + rest)
    && (path != "~" && path != "$HOME" && (forall rest :: path != "~/" + rest && path != "$HOME/" + rest) ==>
          word == path)
  }

  lemma HomeRestIs(path: string, rest: string)
    ensures HomeRest("~/" + rest) == HomeRest("$HOME/" + rest) == Some(rest)
    ensures HomeRest(path).Some? ==> path == "~/" + HomeRest(path).value || path == "$HOME/" + HomeRest(path).value
  {
    var a, b := "~/" + rest, "$HOME/" + rest;
    assert a[..2] == "~/" && a[2..] == rest;
    assert b[..6] == "$HOME/" && b[6..] == rest && b[0] == '$' && b[..2][0] == '$';
    if HomeRest(path).Some? {
      if HasPrefix(path, "~/") {
        assert path == path[..2] + path[2..];
      } else {
        assert path == path[..6] + path[6..];
      }
    }
  }

  lemma StandsForIs(path: string, word: string, home: string)
    ensures StandsFor(path, word, home) <==> word == Expanded(path, home)
  {
    HomeRestIs(path, "");
    forall rest | path == "~/" + rest || path == "$HOME/" + rest ensures HomeRest(path) == Some(rest) {
      HomeRestIs(path, rest);
    }
    if HomeRest(path).Some? {
      var rest := HomeRest(path).value;
      assert path == "~/" + rest || path == "$HOME/" + rest;
      assert path[0] in "~$" && |path| == |rest| + (if path == "~/" + rest then 2 else 6);
    } else {
      assert forall rest :: path != "~/" + rest && path != "$HOME/" + rest;
    }
  }

  /** The two commands that are meant, said of the entries of the environment. */
  ghost predicate IsMeant(read: Option<seq<Command>>, inv: Invocation, words: seq<string>, home: string)
  {
    && read.Some? && |read.value| == 2
    && var cd, cargo := read.value[0], read.value[1];
    && cd.assigns == [] && |cd.argv| == 2 && cd.argv[0] == "cd" && StandsFor(inv.remoteDir, cd.argv[1], home)
    && SetsEach(cargo.assigns, inv)
    && cargo.argv != [] && StandsFor(inv.cargoPath, cargo.argv[0], home)
    && cargo.argv[1..] == (match inv.toolchain case Some(tc) => ["+" + tc] case None => []) + words
  }

  /** RUSTFLAGS first if it is given, then one assignment for each entry, in order. */
  ghost predicate SetsEach(bs: seq<(string, string)>, inv: Invocation)
  {
    var k := if inv.rustflags.Some? then 1 else 0;
    && |bs| == k + |inv.env|
    && (inv.rustflags.Some? ==> bs[0] == ("RUSTFLAGS", inv.rustflags.value))
    && (forall i, key, value | 0 <= i < |inv.env| && IsPair(inv.env[i], key, value) :: bs[k + i] == (key, value))
  }

  lemma SetsEachIs(bs: seq<(string, string)>, inv: Invocation)
    requires forall kv <- inv.env :: ValidEntry(kv)
    ensures SetsEach(bs, inv) <==> bs == Bindings(inv)
  {
    hide EqAt, IsPair, ValidEntry, Binding;
    var k := if inv.rustflags.Some? then 1 else 0;
    forall i | 0 <= i < |inv.env|
      ensures IsPair(inv.env[i], Binding(inv.env[i]).0, Binding(inv.env[i]).1)
      ensures Bindings(inv)[k + i] == Binding(inv.env[i])
    {
      EntryIs(inv.env[i]);
    }
    forall i, key, value | 0 <= i < |inv.env| && IsPair(inv.env[i], key, value)
      ensures Bindings(inv)[k + i] == (key, value)
    {
      PairIs(inv.env[i], key, value);
    }
    if SetsEach(bs, inv) {
      forall i | 0 <= i < |bs| ensures bs[i] == Bindings(inv)[i] {
        if i >= k {
          var kv := inv.env[i - k];
          assert IsPair(kv, Binding(kv).0, Binding(kv).1) && bs[k + (i - k)] == (Binding(kv).0, Binding(kv).1);
        }
      }
    }
  }

  lemma MeantIs(inv: Invocation, words: seq<string>, home: string, read: Option<seq<Command>>)
    requires forall kv <- inv.env :: ValidEntry(kv)
    ensures IsMeant(read, inv, words, home) <==> read == Some(Intended(inv, words, home))
  {
    hide SetsEach, StandsFor, Expanded, Bindings, ValidEntry;
    StandsForIs(inv.remoteDir, Expanded(inv.remoteDir, home), home);
    StandsForIs(inv.cargoPath, Expanded(inv.cargoPath, home), home);
    SetsEachIs(Bindings(inv), inv);
    var tc := match inv.toolchain case Some(tc) => ["+" + tc] case None => [];
    var meant := Intended(inv, words, home);
    assert meant[1].argv[1..] == tc + words;
    if IsMeant(read, inv, words, home) {
      var cd, cargo := read.value[0], read.value[1];
      StandsForIs(inv.remoteDir, cd.argv[1], home);
      StandsForIs(inv.cargoPath, cargo.argv[0], home);
      SetsEachIs(cargo.assigns, inv);
      assert cd.argv == ["cd", cd.argv[1]] && cargo.argv == [cargo.argv[0]] + cargo.argv[1..];
      assert meant[1].argv == [meant[1].argv[0]] + meant[1].argv[1..];
      assert read.value == [cd, cargo];
    }
  }

  /** The texts of the assignments: RUSTFLAGS first if it is given, then the entries in order. */
  ghost predicate PartsText(inv: Invocation, parts: seq<string>)
  {
    var k := if inv.rustflags.Some? then 1 else 0;
    && |parts| == k + |inv.env|
    && (inv.rustflags.Some? ==> parts[0] == "RUSTFLAGS=" + Quote(inv.rustflags.value))
    && (forall i, key, value | 0 <= i < |inv.env| && IsPair(inv.env[i], key, value) ::
          parts[k + i] == key + "=" + Quote(value))
  }

  /** The line, whatever its pieces contain. */
  ghost predicate IsLine(inv: Invocation, words: seq<string>, line: string)
  {
    exists parts :: PartsText(inv, parts) &&
      line == "cd " + QuoteRemotePath(inv.remoteDir) + " && " + (if parts == [] then "" else JoinWith(parts) + " ") +
              CargoProgram(inv) + " " + ShellJoin(words)
  }

  lemma PartsAre(inv: Invocation, parts: seq<string>)
    requires forall kv <- inv.env :: ValidEntry(kv)
    requires PartsText(inv, parts)
    ensures forall i | 0 <= i < |parts| :: parts[i] == AssignText(Bindings(inv)[i])
  {
    hide EqAt, IsPair, ValidEntry, Binding, Quote;
    var k := if inv.rustflags.Some? then 1 else 0;
    forall i | 0 <= i < |parts| ensures parts[i] == AssignText(Bindings(inv)[i]) {
      if i >= k {
        var kv := inv.env[i - k];
        EntryIs(kv);
        assert Bindings(inv)[i] == Binding(kv);
        assert parts[k + (i - k)] == AssignText(Binding(kv));
      } else {
        assert "RUSTFLAGS" + "=" == "RUSTFLAGS=";
      }
    }
  }

  function PathField(path: string, home: string): (f: Field)
    ensures Text(f) == Expanded(path, home)
  {
    if path == "~" || path == "$HOME" then Marked(home, true)
    else
      match HomeRest(path)
      case Some(rest) =>
        var f := Marked(home, true) + Marked("/", false) + FieldOf(rest);
        assert Text(f) == home + "/" + rest;
        f
      case None => FieldOf(path)
  }

  lemma ReadsPath(path: string, home: string)
    requires NulFree(path)
    ensures Reads(QuoteRemotePath(path), PathField(path, home), home)
    ensures StandsFor(path, Text(PathField(path, home)), home)
  {
    StandsForIs(path, Text(PathField(path, home)), home);
    ReadsHome(home);
    if path == "~" || path == "$HOME" {
    } else if HomeRest(path).Some? {
      var rest := HomeRest(path).value;
      ReadsInert("/", home);
      ReadsQuote(rest, home);
      ReadsAppend("\"$HOME\"", Marked(home, true), "/", Marked("/", false), home);
      ReadsAppend("\"$HOME\"" + "/", Marked(home, true) + Marked("/", false), Quote(rest), FieldOf(rest), home);
      assert "\"$HOME\"" + "/" == "\"$HOME\"/";
    } else {
      ReadsQuote(path, home);
    }
  }

  function AssignField(b: (string, string)): Field
  {
    Marked(b.0, false) + Marked("=", false) + FieldOf(b.1)
  }

  function AssignFields(bs: seq<(string, string)>): (fs: seq<Field>)
    ensures |fs| == |bs|
  {
    seq(|bs|, i requires 0 <= i < |bs| => AssignField(bs[i]))
  }

  lemma ReadsAssign(b: (string, string), home: string)
    requires IsName(b.0) && NulFree(b.1)
    ensures Reads(AssignText(b), AssignField(b), home)
  {
    ReadsInert(b.0, home);
    ReadsInert("=", home);
    ReadsQuote(b.1, home);
    ReadsAppend(b.0, Marked(b.0, false), "=", Marked("=", false), home);
    ReadsAppend(b.0 + "=", Marked(b.0, false) + Marked("=", false), Quote(b.1), FieldOf(b.1), home);
  }

  lemma {:induction false} EqIndexSkips(name: Field, rest: Field)
    requires forall i | 0 <= i < |name| :: name[i] != QChar('=', false)
    requires rest != [] && rest[0] == QChar('=', false)
    ensures EqIndex(name + rest) == |name|
  {
    if name == [] {
      assert name + rest == rest;
    } else {
      assert (name + rest)[1..] == name[1..] + rest && (name + rest)[0] == name[0];
      EqIndexSkips(name[1..], rest);
    }
  }

  lemma AssignFieldIs(b: (string, string))
    requires IsName(b.0)
    ensures IsAssignment(AssignField(b)) && AssignmentOf(AssignField(b)) == b
  {
    var name, rest := Marked(b.0, false), Marked("=", false) + FieldOf(b.1);
    var f := AssignField(b);
    assert f == name + rest;
    EqIndexSkips(name, rest);
    assert f[..|name|] == name && f[|name| + 1..] == FieldOf(b.1);
  }

  lemma {:induction false} NoEqNoAssignment(f: Field)
    requires forall i | 0 <= i < |f| :: f[i] != QChar('=', false)
    ensures EqIndex(f) == |f|
  {
    if f != [] { NoEqNoAssignment(f[1..]); }
  }

  predicate PathChar(c: char)
  {
    Alnum(c) || c in "._+/-"
  }

  /** Letters, digits and `._+/-`, and no `-` first. */
  predicate PlainPath(rest: string)
  {
    && rest != "" && rest[0] != '-'
    && forall c <- rest :: 'a' <= c <= 'z' || 'A' <= c <= 'Z' || '0' <= c <= '9' || c in "._+/-"
  }

  lemma PlainPathIs(rest: string)
    ensures PlainPath(rest) <==> PathWord(rest)
  {
    if forall i | 0 <= i < |rest| :: PathChar(rest[i]) {
      forall c | c in rest ensures PathChar(c) {
        var i :| 0 <= i < |rest| && rest[i] == c;
      }
    }
  }

  lemma PlainPathHasNoHome(path: string)
    requires PlainPath(path)
    ensures HomeRest(path) == None
  {
    HomeRestIs(path, "");
    assert path[0] in path && path[0] != '~' && path[0] != '$';
  }

  /** A valid cargo path is a plain path, optionally below `~/` or `$HOME/`. */
  lemma ValidCargoPathIs(path: string)
    ensures ValidCargoPath(path) <==>
            PlainPath(path) || exists rest :: (path == "~/" + rest || path == "$HOME/" + rest) && PlainPath(rest)
  {
    hide HomeRest, PathWord, PlainPath;
    HomeRestIs(path, "");
    PlainPathIs(path);
    if PlainPath(path) {
      PlainPathHasNoHome(path);
    }
    if HomeRest(path).Some? {
      var rest := HomeRest(path).value;
      PlainPathIs(rest);
      assert path == "~/" + rest || path == "$HOME/" + rest;
      assert ValidCargoPath(path) <==> PlainPath(rest);
    }
    forall rest | path == "~/" + rest || path == "$HOME/" + rest ensures HomeRest(path) == Some(rest) {
      HomeRestIs(path, rest);
    }
    assert HomeRest(path).None? ==> (ValidCargoPath(path) <==> PlainPath(path));
  }

  lemma CargoPathIsNot(path: string)
    requires ValidCargoPath(path)
    ensures path != "~" && path != "$HOME"
  {
    BareHomeIsNot();
  }

  lemma BareHomeIsNot()
    ensures !ValidCargoPath("~") && !ValidCargoPath("$HOME")
  {
    var d := "$HOME";
    assert |d| == 5 && d[0] == '$' && !HasPrefix(d, "~/") && !PathChar(d[0]);
    var t := "~";
    assert !PathChar(t[0]);
  }

  lemma InertPathChar(c: char)
    requires PathChar(c)
    ensures Inert(c)
  {}

  lemma PathWordChars(rest: string)
    requires PathWord(rest)
    ensures '\0' !in rest && '=' !in rest
  {
    assert !PathChar('=') && !PathChar('\0');
  }

  lemma CargoPathChars(path: string)
    requires ValidCargoPath(path)
    ensures NulFree(path) && '=' !in path
  {
    hide PathWord, HomeRest;
    var rest := match HomeRest(path) case Some(r) => r case None => path;
    HomeRestIs(path, rest);
    PathWordChars(rest);
    assert '=' !in "~/" && '=' !in "$HOME/" && '\0' !in "~/" && '\0' !in "$HOME/";
  }

  /** A valid cargo path is a command name, unless it is a bare reserved word. */
  lemma CargoFieldIs(path: string, home: string)
    requires ValidCargoPath(path)
    ensures NulFree(path)
    ensures !IsAssignment(PathField(path, home))
    ensures Reserved(PathField(path, home)) <==> ReservedText(path)
  {
    CargoPathChars(path);
    CargoPathIsNot(path);
    match HomeRest(path)
    case Some(rest) =>
      assert path[|path| - |rest| - 1] == (if HasPrefix(path, "~/") then path[..2][1] else path[..6][5]);
      HomeCargoField(path, rest, home);
    case None =>
      forall i | 0 <= i < |path| ensures FieldOf(path)[i] != QChar('=', false) { assert path[i] in path; }
      NoEqNoAssignment(FieldOf(path));
      forall i | 0 <= i < |path| ensures Inert(path[i]) { InertPathChar(path[i]); }
  }

  lemma HomeCargoField(path: string, rest: string, home: string)
    requires HomeRest(path) == Some(rest) && path != "~" && path != "$HOME" && '=' !in path
    requires |rest| < |path| && path[|path| - |rest|..] == rest && path[|path| - |rest| - 1] == '/'
    ensures !IsAssignment(PathField(path, home))
    ensures !Reserved(PathField(path, home)) && !ReservedText(path)
  {
    hide FieldOf, HomeRest, ReservedText, ValidCargoPath;
    var f, n := PathField(path, home), |path| - |rest|;
    assert f == Marked(home, true) + Marked("/", false) + FieldOf(rest);
    hide PathField;
    assert Text(f) == home + "/" + rest;
    assert f[|home|] == Marked("/", false)[0] == QChar('/', false);
    forall i | 0 <= i < |f| ensures f[i] != QChar('=', false) {
      assert f[i].c == Text(f)[i];
      if i < |home| {
        assert f[i] == Marked(home, true)[i];
      } else if i > |home| {
        assert f[i].c == rest[i - |home| - 1] == path[n + (i - |home| - 1)];
      }
    }
    NoEqNoAssignment(f);
    NoSlashReserved(Text(f), |home|);
    NoSlashReserved(path, n - 1);
  }

  lemma NoSlashReserved(s: string, i: nat)
    requires i < |s| && s[i] == '/'
    ensures !ReservedText(s)
  {
    assert s[i] in s;
  }

  // ----- the whole line -----

  lemma {:induction false} AndListWords(fs: seq<Field>, done: seq<Field>)
    ensures AndList(WordTokens(fs), done) ==
            match Simple(done + fs, []) case None => None case Some(c) => Some([c])
  {
    if fs == [] {
      assert done + fs == done;
    } else {
      assert WordTokens(fs)[1..] == WordTokens(fs[1..]) && done + fs == done + [fs[0]] + fs[1..];
      AndListWords(fs[1..], done + [fs[0]]);
    }
  }

  lemma {:induction false} SimpleAssigns(bs: seq<(string, string)>, fs: seq<Field>, done: seq<(string, string)>)
    requires forall b <- bs :: IsName(b.0)
    ensures Simple(AssignFields(bs) + fs, done) == Simple(fs, done + bs)
  {
    hide AssignField, Reserved;
    var afs := AssignFields(bs);
    if bs == [] {
      assert afs + fs == fs && done + bs == done;
    } else {
      assert bs[0] in bs;
      AssignFieldIs(bs[0]);
      SimpleAssigns(bs[1..], fs, done + [bs[0]]);
      assert (afs + fs)[1..] == AssignFields(bs[1..]) + fs;
      assert done + [bs[0]] + bs[1..] == done + bs;
    }
  }

  /** Joining with spaces nests. */
  lemma {:induction false} JoinAppend(xs: seq<string>, ys: seq<string>)
    requires xs != [] && ys != []
    ensures JoinWith(xs + ys) == JoinWith(xs) + " " + JoinWith(ys)
  {
    if |xs| == 1 {
      assert (xs + ys)[1..] == ys && (xs + ys)[0] == xs[0];
    } else {
      assert (xs + ys)[1..] == xs[1..] + ys && (xs + ys)[0] == xs[0];
      JoinAppend(xs[1..], ys);
      assert xs[0] + " " + (JoinWith(xs[1..]) + " " + JoinWith(ys)) == xs[0] + " " + JoinWith(xs[1..]) + " " + JoinWith(ys);
    }
  }

  lemma TokensSkipSpace(rest: string, home: string)
    ensures Tokens(" " + rest, home) == Tokens(rest, home)
  {
    assert (" " + rest)[1..] == rest;
  }

  lemma TokensAndIf(rest: string, home: string)
    ensures Tokens("&& " + rest, home) == Cons(AndIf, Tokens(rest, home))
  {
    var s := "&& " + rest;
    assert s[1..] == "& " + rest && s[1..][0] == '&' && s[1..][1..] == " " + rest;
    TokensSkipSpace(rest, home);
  }

  /** The fields of everything after `&&`. */
  function TailFields(inv: Invocation, words: seq<string>, home: string): seq<Field>
    requires forall kv <- inv.env :: ValidEntry(kv)
  {
    AssignFields(Bindings(inv)) + CargoFields(inv, words, home)
  }

  function CargoFields(inv: Invocation, words: seq<string>, home: string): (fs: seq<Field>)
    ensures fs != [] && fs[0] == PathField(inv.cargoPath, home)
  {
    [PathField(inv.cargoPath, home)] +
    (match inv.toolchain case Some(tc) => [Marked("+", false) + FieldOf(tc)] case None => []) +
    FieldsOf(words)
  }

  function CargoParts(inv: Invocation, words: seq<string>): (ps: seq<string>)
    ensures ps != []
  {
    [QuoteRemotePath(inv.cargoPath)] +
    (match inv.toolchain case Some(tc) => ["+" + Quote(tc)] case None => []) +
    Quoted(words)
  }

  lemma CargoPartsRead(inv: Invocation, words: seq<string>, home: string)
    requires Ready(inv, words)
    ensures AllRead(CargoParts(inv, words), CargoFields(inv, words, home), home)
  {
    hide Lex, Reads, PathField, QuoteRemotePath, Quote, FieldOf, IsAssignment, Reserved, ReservedText, PathWord;
    CargoFieldIs(inv.cargoPath, home);
    ReadsPath(inv.cargoPath, home);
    QuotedAllRead(words, home);
    var tcParts, tcFields := match inv.toolchain case Some(tc) => ["+" + Quote(tc)] case None => [],
                             match inv.toolchain case Some(tc) => [Marked("+", false) + FieldOf(tc)] case None => [];
    if inv.toolchain.Some? {
      var tc := inv.toolchain.value;
      ReadsInert("+", home);
      ReadsQuote(tc, home);
      ReadsAppend("+", Marked("+", false), Quote(tc), FieldOf(tc), home);
    }
    var head := 1 + |tcParts|;
    forall i | 0 <= i < |CargoParts(inv, words)|
      ensures Reads(CargoParts(inv, words)[i], CargoFields(inv, words, home)[i], home)
    {
      if i >= head {
        assert CargoParts(inv, words)[i] == Quoted(words)[i - head];
        assert CargoFields(inv, words, home)[i] == FieldsOf(words)[i - head];
      }
    }
  }

  /** Every piece after `&&` reads as its field. */
  lemma TailTokens(inv: Invocation, words: seq<string>, home: string, parts: seq<string>)
    requires Ready(inv, words)
    requires |parts| == |Bindings(inv)| && forall i | 0 <= i < |parts| :: parts[i] == AssignText(Bindings(inv)[i])
    ensures var tail := JoinWith(parts + CargoParts(inv, words));
            Tokens(tail, home) == Tokens(tail + " ", home) == Some(WordTokens(TailFields(inv, words, home)))
  {
    hide AllRead, Lex, JoinWith, Bindings, CargoParts, CargoFields, Flush;
    BindingsAreNames(inv, words);
    CargoPartsRead(inv, words, home);
    AssignsRead(Bindings(inv), parts, home);
    var bfs, cs, cfs := AssignFields(Bindings(inv)), CargoParts(inv, words), CargoFields(inv, words, home);
    AllReadAppend(parts, bfs, cs, cfs, home);
    TokensOfJoin(parts + cs, bfs + cfs, home);
    TrailingSpace(parts + cs, bfs + cfs, home);
  }

  lemma AssignsRead(bs: seq<(string, string)>, parts: seq<string>, home: string)
    requires |parts| == |bs| && forall i | 0 <= i < |parts| :: parts[i] == AssignText(bs[i])
    requires forall b <- bs :: IsName(b.0) && NulFree(b.1)
    ensures AllRead(parts, AssignFields(bs), home)
  {
    hide Reads, Lex, AssignText, AssignField, IsName;
    forall i | 0 <= i < |parts| ensures Reads(parts[i], AssignFields(bs)[i], home) {
      assert bs[i] in bs;
      ReadsAssign(bs[i], home);
    }
  }

  lemma BindingsAreNames(inv: Invocation, words: seq<string>)
    requires Ready(inv, words)
    ensures forall b <- Bindings(inv) :: IsName(b.0) && NulFree(b.1)
  {
    hide IsName, NulFree, ValidCargoPath, ValidEntry, Binding;
    var bs := Bindings(inv);
    var k := if inv.rustflags.Some? then 1 else 0;
    forall i | 0 <= i < |bs| ensures IsName(bs[i].0) && NulFree(bs[i].1) {
      if i >= k {
        var kv := inv.env[i - k];
        assert kv in inv.env && bs[i] == Binding(kv);
        BindingIsName(kv);
      } else {
        RustflagsIsName();
      }
    }
  }

  lemma BindingIsName(kv: string)
    requires ValidEntry(kv) && NulFree(kv)
    ensures IsName(Binding(kv).0) && NulFree(Binding(kv).1)
  {
    hide EqAt, NameStart, NameChar;
  }

  lemma RustflagsIsName()
    ensures IsName("RUSTFLAGS")
  {}

  /** The tail as the program prints it is its pieces joined with spaces; with no
    * words at all a trailing space is left over. */
  lemma TailText(inv: Invocation, words: seq<string>, parts: seq<string>)
    ensures var env := if parts == [] then "" else JoinWith(parts) + " ";
            env + CargoProgram(inv) + " " + ShellJoin(words) ==
            JoinWith(parts + CargoParts(inv, words)) + if words == [] then " " else ""
  {
    hide Quote, QuoteRemotePath, JoinWith;
    var prog := ProgramParts(inv);
    ProgramText(inv);
    assert CargoParts(inv, words) == prog + Quoted(words);
    if words == [] {
      assert prog + Quoted(words) == prog;
      assert ShellJoin(words) == "" by { NoWords(); }
    } else {
      JoinAppend(prog, Quoted(words));
    }
    if parts == [] {
      assert parts + CargoParts(inv, words) == CargoParts(inv, words);
    } else {
      JoinAppend(parts, CargoParts(inv, words));
    }
  }

  lemma NoWords()
    ensures ShellJoin([]) == ""
  {}

  function ProgramParts(inv: Invocation): seq<string>
  {
    [QuoteRemotePath(inv.cargoPath)] + match inv.toolchain case Some(tc) => ["+" + Quote(tc)] case None => []
  }

  lemma ProgramText(inv: Invocation)
    ensures JoinWith(ProgramParts(inv)) == CargoProgram(inv)
  {
    hide Quote, QuoteRemotePath;
    if inv.toolchain.Some? {
      assert ProgramParts(inv)[1..] == ["+" + Quote(inv.toolchain.value)];
      assert " " + ("+" + Quote(inv.toolchain.value)) == " +" + Quote(inv.toolchain.value);
    }
  }

  lemma {:induction false} TrailingSpace(parts: seq<string>, fs: seq<Field>, home: string)
    requires AllRead(parts, fs, home)
    ensures parts != [] ==> Tokens(JoinWith(parts) + " ", home) == Tokens(JoinWith(parts), home)
  {
    TokensOfJoin(parts, fs, home);
    if parts == [] {
    } else if |parts| == 1 {
      WordThenSpace(parts[0], fs[0], "", home);
      WordAtEnd(parts[0], fs[0], home);
      assert parts[0] + " " + "" == parts[0] + " ";
      NoTokens(home);
      assert [Word(fs[0])] + [] == [Word(fs[0])];
    } else {
      forall i | 0 <= i < |parts| - 1 ensures Reads(parts[1..][i], fs[1..][i], home) {
        assert Reads(parts[i + 1], fs[i + 1], home);
      }
      TrailingSpace(parts[1..], fs[1..], home);
      assert Reads(parts[0], fs[0], home);
      WordThenSpace(parts[0], fs[0], JoinWith(parts[1..]), home);
      WordThenSpace(parts[0], fs[0], JoinWith(parts[1..]) + " ", home);
      assert JoinWith(parts) + " " == parts[0] + " " + (JoinWith(parts[1..]) + " ");
    }
  }

  lemma LineText(q: string, tail: string)
    ensures "cd" + " " + (q + " " + ("&& " + tail)) == "cd " + q + " && " + tail
  {
    assert " " + ("&& " + tail) == " && " + tail;
    assert "cd" + " " == "cd ";
  }

  lemma LineTokens(inv: Invocation, words: seq<string>, home: string, tail: string)
    requires Ready(inv, words)
    ensures var cd := [Word(Marked("cd", false)), Word(PathField(inv.remoteDir, home)), AndIf];
            Tokens("cd " + QuoteRemotePath(inv.remoteDir) + " && " + tail, home) ==
            match Tokens(tail, home) case None => None case Some(ts) => Some(cd + ts)
  {
    hide Lex, QuoteRemotePath, PathField, Reads, Quote, FieldOf;
    var q := QuoteRemotePath(inv.remoteDir);
    ReadsInert("cd", home);
    ReadsPath(inv.remoteDir, home);
    LineText(q, tail);
    WordThenSpace("cd", Marked("cd", false), q + " " + ("&& " + tail), home);
    WordThenSpace(q, PathField(inv.remoteDir, home), "&& " + tail, home);
    TokensAndIf(tail, home);
    if Tokens(tail, home).Some? {
      var ts, cd, dir := Tokens(tail, home).value, Word(Marked("cd", false)), Word(PathField(inv.remoteDir, home));
      assert [cd] + ([dir] + ([AndIf] + ts)) == [cd, dir, AndIf] + ts;
    }
  }

  lemma CdIsSimple(dir: Field)
    ensures Simple([Marked("cd", false), dir], []) == Some(Command([], ["cd", Text(dir)]))
  {
    var fs := [Marked("cd", false), dir];
    NoEqNoAssignment(fs[0]);
    assert Text(fs[0]) == "cd" && !ReservedText("cd");
    assert Texts(fs) == ["cd", Text(dir)];
  }

  lemma CargoTexts(inv: Invocation, words: seq<string>, home: string)
    requires forall kv <- inv.env :: ValidEntry(kv)
    ensures Texts(CargoFields(inv, words, home)) == Intended(inv, words, home)[1].argv
  {
    hide EqAt, Binding, ValidEntry;
    var fs, argv := CargoFields(inv, words, home), Intended(inv, words, home)[1].argv;
    var head := |fs| - |words|;
    if inv.toolchain.Some? {
      var tc := inv.toolchain.value;
      assert Text(Marked("+", false) + FieldOf(tc)) == "+" + tc;
    }
    forall i | 0 <= i < |fs| ensures Text(fs[i]) == argv[i] {
      if i >= head { assert fs[i] == FieldsOf(words)[i - head]; }
    }
  }

  /** The second command parses as meant, unless its name is read as a reserved word. */
  lemma TailIsSimple(inv: Invocation, words: seq<string>, home: string)
    requires Ready(inv, words)
    ensures Simple(TailFields(inv, words, home), []) ==
            if Bindings(inv) == [] && ReservedText(inv.cargoPath) then None else Some(Intended(inv, words, home)[1])
  {
    hide PathField, FieldOf, Reserved, IsAssignment, Marked;
    var bs, fs := Bindings(inv), CargoFields(inv, words, home);
    BindingsAreNames(inv, words);
    SimpleAssigns(bs, fs, []);
    assert [] + bs == bs;
    CargoFieldIs(inv.cargoPath, home);
    CargoTexts(inv, words, home);
  }

  lemma TwoCommands(x: Field, y: Field, rest: seq<Token>)
    ensures AndList([Word(x), Word(y), AndIf] + rest, []) ==
            match Simple([x, y], [])
            case None => None
            case Some(c) => match AndList(rest, []) case None => None case Some(cs) => Some([c] + cs)
  {
    hide Simple;
    var ts := [Word(x), Word(y), AndIf] + rest;
    assert ts[1..] == [Word(y), AndIf] + rest && ts[1..][1..] == [AndIf] + rest && ts[1..][1..][1..] == rest;
    assert [] + [x] == [x] && [x] + [y] == [x, y];
    assert AndList(ts, []) == AndList(ts[1..], [x]) == AndList(ts[1..][1..], [x, y]);
  }

  /** The shell runs exactly the two intended commands, every value intact. */
  lemma LineReadsBack(inv: Invocation, words: seq<string>, home: string, parts: seq<string>, line: string)
    requires Ready(inv, words)
    requires |parts| == |Bindings(inv)| && forall i | 0 <= i < |parts| :: parts[i] == AssignText(Bindings(inv)[i])
    requires line == "cd " + QuoteRemotePath(inv.remoteDir) + " && " +
                     (if parts == [] then "" else JoinWith(parts) + " ") + CargoProgram(inv) + " " + ShellJoin(words)
    ensures Commands(line, home) == Some(Intended(inv, words, home)) <==>
            !(Bindings(inv) == [] && ReservedText(inv.cargoPath))
  {
    hide Lex, JoinWith, Quote, QuoteRemotePath, PathField, CargoProgram, Simple, Bindings, TailFields, CargoParts,
         Printable, ValidEntry, ReservedText;
    var env := if parts == [] then "" else JoinWith(parts) + " ";
    var tail := env + CargoProgram(inv) + " " + ShellJoin(words);
    var prefix := "cd " + QuoteRemotePath(inv.remoteDir) + " && ";
    assert line == prefix + tail;
    TailText(inv, words, parts);
    TailTokens(inv, words, home, parts);
    var body := JoinWith(parts + CargoParts(inv, words));
    assert words != [] ==> body + "" == body;
    LineTokens(inv, words, home, tail);
    var cd, dir := Marked("cd", false), PathField(inv.remoteDir, home);
    var rest := WordTokens(TailFields(inv, words, home));
    assert Tokens(line, home) == Some([Word(cd), Word(dir), AndIf] + rest);
    TwoCommands(cd, dir, rest);
    CdIsSimple(dir);
    AndListWords(TailFields(inv, words, home), []);
    assert [] + TailFields(inv, words, home) == TailFields(inv, words, home);
    TailIsSimple(inv, words, home);
    assert Intended(inv, words, home) == [Intended(inv, words, home)[0]] + [Intended(inv, words, home)[1]];
  }
}
