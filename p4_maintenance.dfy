/**
 * The journal-rotation rules of the `p4-maintenance` command: reading the
 * `p4dctl list` output into servers, choosing the servers to process,
 * ordering each server's journals newest first, and sorting them into
 * skipped, kept (compressed unless already gzipped) and deleted ones.
 */
module P4Maintenance {
  import opened Wrappers
  import opened Text

  /** The exceptions the command can raise while it reads the server list. */
  datatype Error =
    | ValueError                 // a config item without `=` cannot be unpacked into `k, v`
    | IndexError                 // a `p4dctl list` line with fewer than three fields
    | KeyError(key: string)      // a server whose configuration has no `root`
    | RuntimeError               // `p4dctl list` exited with a non-zero status
    | UsageError(server: string) // the requested server is not listed

  // ---------------------------------------------------------------- config items

  /** `k` in `k, v = item.split('=')[0:2]`: the text before the first `=`. */
  function Key(item: string): string
  {
    Split(item, '=')[0]
  }

  /** `v` in `k, v = item.split('=')[0:2]`: the text between the first and the second `=`. */
  function Val(item: string): string
    requires |Split(item, '=')| >= 2
  {
    Split(item, '=')[1]
  }

  /** An item the unpacking accepts: it splits into at least two pieces. */
  predicate IsPair(item: string)
  {
    |Split(item, '=')| >= 2
  }

  /**
   * The configuration the loop of `P4Server.__init__` builds from the items,
   * or the ValueError of the first item without `=`.
   */
  function ConfigOf(items: seq<string>): Result<map<string, string>, Error>
  {
    if items == [] then Success(map[])
    else
      var config :- ConfigOf(items[..|items| - 1]);
      var item := items[|items| - 1];
      if !IsPair(item) then Failure(ValueError) else Success(config[Key(item) := Val(item)])
  }

  /** The loop of `P4Server.__init__` (lines 11-14), item by item. */
  method ParseConfig(items: seq<string>) returns (r: Result<map<string, string>, Error>)
    ensures r == ConfigOf(items)
  {
    var config: map<string, string> := map[];
    for i := 0 to |items|
      invariant ConfigOf(items[..i]) == Success(config)
    {
      assert items[..i + 1][..i] == items[..i];
      var parts := Split(items[i], '=');
      if |parts| < 2 {
        ConfigFails(items, i);
        return Failure(ValueError);
      }
      var k, v := parts[0], parts[1];
      config := config[k := v];
    }
    assert items[..|items|] == items;
    return Success(config);
  }

  /** The configuration fails exactly when some item has no `=`, and then with a ValueError. */
  lemma {:induction false} ConfigFails(items: seq<string>, i: nat)
    requires i < |items| && !IsPair(items[i])
    ensures ConfigOf(items) == Failure(ValueError)
    decreases |items|
  {
    var init := items[..|items| - 1];
    if i < |init| {
      assert init[i] == items[i];
      ConfigFails(init, i);
      assert ConfigOf(init).IsFailure();
    } else {
      ConfigError(init);
    }
  }

  /** Reading the items can fail only with a ValueError. */
  lemma {:induction false} ConfigError(items: seq<string>)
    ensures ConfigOf(items).Failure? ==> ConfigOf(items) == Failure(ValueError)
  {
    if items != [] {
      ConfigError(items[..|items| - 1]);
    }
  }

  /** Items that all contain `=` always yield a configuration. */
  lemma {:induction false} ConfigSucceeds(items: seq<string>)
    requires forall i | 0 <= i < |items| :: '=' in items[i]
    ensures ConfigOf(items).Success?
  {
    if items != [] {
      ConfigSucceeds(items[..|items| - 1]);
      SplitHasSecond(items[|items| - 1], '=');
    }
  }

  /** The configuration's keys are exactly the items' keys. */
  lemma {:induction false} ConfigKeys(items: seq<string>, k: string)
    requires ConfigOf(items).Success?
    ensures k in ConfigOf(items).value <==> exists i | 0 <= i < |items| :: Key(items[i]) == k
  {
    if items != [] {
      var init := items[..|items| - 1];
      ConfigKeys(init, k);
      if exists i | 0 <= i < |init| :: Key(init[i]) == k {
        var i :| 0 <= i < |init| && Key(init[i]) == k;
        assert items[i] == init[i];
      }
      if exists i | 0 <= i < |items| :: Key(items[i]) == k {
        var i :| 0 <= i < |items| && Key(items[i]) == k;
        if i < |init| {
          assert init[i] == items[i];
        }
      }
    }
  }

  /** A later item overrides an earlier one: a key maps to the value of the last item that has it. */
  lemma {:induction false} ConfigLast(items: seq<string>, i: nat)
    requires ConfigOf(items).Success? && i < |items|
    requires forall j | i < j < |items| :: Key(items[j]) != Key(items[i])
    ensures IsPair(items[i])
    ensures Key(items[i]) in ConfigOf(items).value && ConfigOf(items).value[Key(items[i])] == Val(items[i])
    decreases |items|
  {
    var init := items[..|items| - 1];
    if i < |items| - 1 {
      assert init[i] == items[i];
      forall j | i < j < |init|
        ensures Key(init[j]) != Key(init[i])
      {
        assert init[j] == items[j];
      }
      ConfigLast(init, i);
    }
  }

  /** The key is the text up to the first `=`, the value the text from there up to the next `=` or the end. */
  lemma {:induction false} KeyValue(item: string)
    requires '=' in item
    ensures IsPair(item)
    ensures '=' !in Key(item) && '=' !in Val(item)
    ensures |Key(item)| + 1 + |Val(item)| <= |item|
    ensures item[..|Key(item)|] == Key(item) && item[|Key(item)|] == '='
    ensures item[|Key(item)| + 1..|Key(item)| + 1 + |Val(item)|] == Val(item)
    ensures |Key(item)| + 1 + |Val(item)| == |item| || item[|Key(item)| + 1 + |Val(item)|] == '='
  {
    SplitHasSecond(item, '=');
    SplitPieces(item, '=');
    var parts := Split(item, '=');
    JoinSplit(item, '=');
    var tail := parts[1..];
    assert Join(parts, '=') == parts[0] + ['='] + Join(tail, '=');
    if |tail| > 1 {
      assert Join(tail, '=') == tail[0] + ['='] + Join(tail[1..], '=');
    }
  }

  /** `self.config[k] = v` for each pair, in order. */
  function Assigned(config: map<string, string>, pairs: seq<(string, string)>): map<string, string>
  {
    if pairs == [] then config
    else Assigned(config, pairs[..|pairs| - 1])[pairs[|pairs| - 1].0 := pairs[|pairs| - 1].1]
  }

  /** Assigning never removes a key. */
  lemma {:induction false} AssignedKeeps(config: map<string, string>, pairs: seq<(string, string)>, k: string)
    requires k in config
    ensures k in Assigned(config, pairs)
  {
    if pairs != [] {
      AssignedKeeps(config, pairs[..|pairs| - 1], k);
    }
  }

  // ---------------------------------------------------------------- servers

  /** A Perforce server: its type, its name and its configuration. */
  datatype Server = Server(kind: string, name: string, config: map<string, string>)

  /** A server whose configuration has a `root`, as every constructed server does. */
  predicate Rooted(s: Server)
  {
    "root" in s.config
  }

  /**
   * `P4Server(t, name, items)`: the items' configuration, then the `p4d -cshow`
   * settings, which `show(name, root)` stands for, assigned over it in order.
   */
  function ServerOf(kind: string, name: string, items: seq<string>, show: (string, string) -> seq<(string, string)>)
    : Result<Server, Error>
  {
    var config :- ConfigOf(items);
    if "root" !in config then Failure(KeyError("root"))
    else Success(Server(kind, name, Assigned(config, show(name, config["root"]))))
  }

  /** `P4Server.__init__` and `_read_config` (lines 8-30), with the regex matching of the `-cshow` output left to `show`. */
  method NewServer(kind: string, name: string, items: seq<string>, show: (string, string) -> seq<(string, string)>)
    returns (r: Result<Server, Error>)
    ensures r == ServerOf(kind, name, items, show)
  {
    var config :- ParseConfig(items);
    if "root" !in config {
      return Failure(KeyError("root"));
    }
    ghost var base := config;
    var pairs := show(name, config["root"]);
    for i := 0 to |pairs|
      invariant config == Assigned(base, pairs[..i])
    {
      assert pairs[..i + 1][..i] == pairs[..i];
      var (k, v) := pairs[i];
      config := config[k := v];
    }
    assert pairs[..|pairs|] == pairs;
    return Success(Server(kind, name, config));
  }

  /** A constructed server always has a `root`. */
  lemma {:induction false} ServerRooted(kind: string, name: string, items: seq<string>, show: (string, string) -> seq<(string, string)>)
    requires ServerOf(kind, name, items, show).Success?
    ensures Rooted(ServerOf(kind, name, items, show).value)
  {
    var config := ConfigOf(items).value;
    AssignedKeeps(config, show(name, config["root"]), "root");
  }

  // ---------------------------------------------------------------- `p4dctl list` lines

  /** `re.split(' +', line.strip())`. */
  function ListFields(line: string): seq<string>
  {
    SplitRuns(Strip(line))
  }

  /** The fields of a listed server: field 0, field 2 and fields 3 onward. */
  datatype Listing = Listing(kind: string, name: string, items: seq<string>)

  /** `data[0], data[2], data[3:]`, with the IndexError of a line of fewer than three fields. */
  function ParseListLine(line: string): Result<Listing, Error>
  {
    var data := ListFields(line);
    if |data| < 3 then Failure(IndexError) else Success(Listing(data[0], data[2], data[3..]))
  }

  /** The fields of a line hold no space and, unless the line is blank, none is empty. */
  lemma {:induction false} ListFieldsShape(line: string)
    ensures forall i | 0 <= i < |ListFields(line)| :: ' ' !in ListFields(line)[i]
    ensures Strip(line) != [] ==> forall i | 0 <= i < |ListFields(line)| :: ListFields(line)[i] != []
  {
    var s := Strip(line);
    assert s != [] ==> s[0] != ' ' && s[|s| - 1] != ' ';
    SplitRunsNonEmpty(s);
    SplitRunsPieces(s);
  }

  /**
   * A line made of fields separated by runs of spaces, padded with whitespace,
   * is read back into those fields: type, name and config items when there are
   * at least three, an IndexError otherwise.
   */
  lemma {:induction false} ParseSpacedLine(pre: string, fs: seq<string>, gaps: seq<nat>, post: string)
    requires AllSpace(pre) && AllSpace(post)
    requires |fs| >= 1 && |gaps| == |fs| - 1
    requires forall i | 0 <= i < |fs| :: fs[i] != [] && ' ' !in fs[i]
    requires forall i | 0 <= i < |gaps| :: gaps[i] >= 1
    requires !IsSpace(fs[0][0]) && !IsSpace(fs[|fs| - 1][|fs[|fs| - 1]| - 1])
    ensures ListFields(pre + Spaced(fs, gaps) + post) == fs
    ensures ParseListLine(pre + Spaced(fs, gaps) + post) ==
              if |fs| < 3 then Failure(IndexError) else Success(Listing(fs[0], fs[2], fs[3..]))
  {
    SpacedStart(fs, gaps);
    StripPadded(pre, Spaced(fs, gaps), post);
    SplitRunsSpaced(fs, gaps);
  }

  /** One line of `p4dctl list` turned into a server. */
  function ServerAt(line: string, show: (string, string) -> seq<(string, string)>): Result<Server, Error>
  {
    var l :- ParseListLine(line);
    ServerOf(l.kind, l.name, l.items, show)
  }

  /** What each line of the output turns into. */
  function LineResults(lines: seq<string>, show: (string, string) -> seq<(string, string)>): (rs: seq<Result<Server, Error>>)
    ensures |rs| == |lines| && forall i | 0 <= i < |lines| :: rs[i] == ServerAt(lines[i], show)
  {
    seq(|lines|, i requires 0 <= i < |lines| => ServerAt(lines[i], show))
  }

  /**
   * Consuming the generator: the servers in order, the first error if a line
   * fails, and a RuntimeError after the last line if `p4dctl` failed.
   */
  function Collect(rs: seq<Result<Server, Error>>, returncode: int): Result<seq<Server>, Error>
  {
    if rs == [] then (if returncode != 0 then Failure(RuntimeError) else Success([]))
    else
      var s :- rs[0];
      var rest :- Collect(rs[1..], returncode);
      Success([s] + rest)
  }

  /** `list(P4Server.Enumerate())`. */
  function ServersOf(lines: seq<string>, show: (string, string) -> seq<(string, string)>, returncode: int)
    : Result<seq<Server>, Error>
  {
    Collect(LineResults(lines, show), returncode)
  }

  /** The servers found before a place in the output, put in front of what the rest of it yields. */
  function Prepend(found: seq<Server>, r: Result<seq<Server>, Error>): Result<seq<Server>, Error>
  {
    if r.Success? then Success(found + r.value) else r
  }

  /** Putting no servers in front changes nothing. */
  lemma {:induction false} PrependNothing(r: Result<seq<Server>, Error>)
    ensures Prepend([], r) == r
  {
    if r.Success? {
      assert [] + r.value == r.value;
    }
  }

  /** Putting servers in front of servers already found in front of a result. */
  lemma {:induction false} PrependPrepend(a: seq<Server>, b: seq<Server>, r: Result<seq<Server>, Error>)
    ensures Prepend(a, Prepend(b, r)) == Prepend(a + b, r)
  {
    if r.Success? {
      assert a + (b + r.value) == (a + b) + r.value;
    }
  }

  /** Collecting from place `i` on: that line's server in front of the rest, or that line's error. */
  lemma {:induction false} CollectFrom(rs: seq<Result<Server, Error>>, i: nat, returncode: int)
    requires i < |rs|
    ensures Collect(rs[i..], returncode) ==
              if rs[i].Failure? then Failure(rs[i].error) else Prepend([rs[i].value], Collect(rs[i + 1..], returncode))
  {
    assert rs[i..][0] == rs[i];
    assert rs[i..][1..] == rs[i + 1..];
  }

  /** A line's server is the one built from its type, name and config fields, or an IndexError. */
  lemma {:induction false} ServerAtFields(line: string, show: (string, string) -> seq<(string, string)>)
    ensures var data := ListFields(line);
            ServerAt(line, show) ==
              if |data| < 3 then Failure(IndexError) else ServerOf(data[0], data[2], data[3..], show)
  {
  }

  /** The body of the loop of `P4Server.Enumerate`: split one line and build its server. */
  method ReadLine(line: string, show: (string, string) -> seq<(string, string)>) returns (r: Result<Server, Error>)
    ensures r == ServerAt(line, show)
  {
    ServerAtFields(line, show);
    var data := ListFields(line);
    if |data| < 3 {
      return Failure(IndexError);
    }
    r := NewServer(data[0], data[2], data[3..], show);
  }

  /** `P4Server.Enumerate` (lines 35-50) with the output lines and exit status of `p4dctl list` as inputs. */
  method Enumerate(lines: seq<string>, show: (string, string) -> seq<(string, string)>, returncode: int)
    returns (r: Result<seq<Server>, Error>)
    ensures r == ServersOf(lines, show, returncode)
  {
    ghost var rs := LineResults(lines, show);
    var servers: seq<Server> := [];
    assert rs[0..] == rs;
    PrependNothing(Collect(rs, returncode));
    for i := 0 to |lines|
      invariant ServersOf(lines, show, returncode) == Prepend(servers, Collect(rs[i..], returncode))
    {
      CollectFrom(rs, i, returncode);
      var s := ReadLine(lines[i], show);
      if s.Failure? {
        return Failure(s.error);
      }
      PrependPrepend(servers, [s.value], Collect(rs[i + 1..], returncode));
      servers := servers + [s.value];
    }
    assert rs[|lines|..] == [];
    if returncode != 0 {
      return Failure(RuntimeError);
    }
    assert servers + [] == servers;
    return Success(servers);
  }

  /** Collecting succeeds exactly when every result is a success and the exit status is 0. */
  lemma {:induction false} CollectSuccess(rs: seq<Result<Server, Error>>, returncode: int)
    ensures Collect(rs, returncode).Success? <==> returncode == 0 && forall i | 0 <= i < |rs| :: rs[i].Success?
  {
    if rs != [] {
      CollectSuccess(rs[1..], returncode);
      assert forall i | 1 <= i < |rs| :: rs[i] == rs[1..][i - 1];
    }
  }

  /** A successful collection holds every server, in order. */
  lemma {:induction false} CollectValues(rs: seq<Result<Server, Error>>, returncode: int)
    requires Collect(rs, returncode).Success?
    ensures |Collect(rs, returncode).value| == |rs|
    ensures forall i | 0 <= i < |rs| :: rs[i].Success? && Collect(rs, returncode).value[i] == rs[i].value
  {
    if rs != [] {
      CollectValues(rs[1..], returncode);
      assert forall i | 1 <= i < |rs| :: rs[i] == rs[1..][i - 1];
    }
  }

  /**
   * The enumeration succeeds exactly when every line yields a server and
   * `p4dctl` exited with status 0.
   */
  lemma {:induction false} ServersOfSuccess(lines: seq<string>, show: (string, string) -> seq<(string, string)>, returncode: int)
    ensures ServersOf(lines, show, returncode).Success? <==>
              returncode == 0 && forall i | 0 <= i < |lines| :: ServerAt(lines[i], show).Success?
  {
    CollectSuccess(LineResults(lines, show), returncode);
  }

  /** A successful enumeration holds one server per line, in line order. */
  lemma {:induction false} ServersOfValues(lines: seq<string>, show: (string, string) -> seq<(string, string)>, returncode: int)
    requires ServersOf(lines, show, returncode).Success?
    ensures |ServersOf(lines, show, returncode).value| == |lines|
    ensures forall i | 0 <= i < |lines| ::
              ServerAt(lines[i], show).Success? && ServersOf(lines, show, returncode).value[i] == ServerAt(lines[i], show).value
  {
    CollectValues(LineResults(lines, show), returncode);
  }

  /** Every enumerated server has a `root`. */
  lemma {:induction false} ServersRooted(lines: seq<string>, show: (string, string) -> seq<(string, string)>, returncode: int)
    requires ServersOf(lines, show, returncode).Success?
    ensures forall s | s in ServersOf(lines, show, returncode).value :: Rooted(s)
  {
    ServersOfValues(lines, show, returncode);
    var servers := ServersOf(lines, show, returncode).value;
    forall s | s in servers
      ensures Rooted(s)
    {
      var i :| 0 <= i < |servers| && servers[i] == s;
      var l := ParseListLine(lines[i]).value;
      ServerRooted(l.kind, l.name, l.items, show);
    }
  }

  // ---------------------------------------------------------------- server filter

  /** `[x for x in servers if x.name == name]`. */
  function Named(servers: seq<Server>, name: string): seq<Server>
  {
    if servers == [] then []
    else (if servers[0].name == name then [servers[0]] else []) + Named(servers[1..], name)
  }

  /** The servers kept are exactly the listed ones with that name. */
  lemma {:induction false} NamedMembers(servers: seq<Server>, name: string, x: Server)
    ensures x in Named(servers, name) <==> x in servers && x.name == name
  {
    if servers != [] {
      NamedMembers(servers[1..], name, x);
      assert servers == [servers[0]] + servers[1..];
    }
  }

  /** The filter keeps the listed order: filtering two lists one after the other filters each in turn. */
  lemma {:induction false} NamedAppend(a: seq<Server>, b: seq<Server>, name: string)
    ensures Named(a + b, name) == Named(a, name) + Named(b, name)
    decreases |a|
  {
    if a == [] {
      assert a + b == b;
    } else {
      assert (a + b)[0] == a[0] && (a + b)[1..] == a[1..] + b;
      NamedAppend(a[1..], b, name);
    }
  }

  /** Each server with that name is kept as often as it is listed, and no other server is kept. */
  lemma {:induction false} NamedCount(servers: seq<Server>, name: string, x: Server)
    ensures multiset(Named(servers, name))[x] == if x.name == name then multiset(servers)[x] else 0
    decreases |servers|
  {
    if servers != [] {
      NamedCount(servers[1..], name, x);
      assert servers == [servers[0]] + servers[1..];
    }
  }

  /** The server filter of lines 84-87, with its usage error when nothing is left. */
  function SelectServers(servers: seq<Server>, name: string): Result<seq<Server>, Error>
  {
    if name == "all" then Success(servers)
    else
      var selected := Named(servers, name);
      if selected == [] then Failure(UsageError(name)) else Success(selected)
  }

  /**
   * `all` selects every server; any other name selects exactly the servers of
   * that name, each as often as listed, and fails with a usage error exactly
   * when there is none. The order is the listed one (`NamedAppend`).
   */
  lemma {:induction false} SelectServersSpec(servers: seq<Server>, name: string)
    ensures SelectServers(servers, name).Failure? <==>
              name != "all" && forall i | 0 <= i < |servers| :: servers[i].name != name
    ensures SelectServers(servers, name).Failure? ==> SelectServers(servers, name).error == UsageError(name)
    ensures name == "all" ==> SelectServers(servers, name) == Success(servers)
    ensures name != "all" && SelectServers(servers, name).Success? ==>
              forall x :: x in SelectServers(servers, name).value <==> x in servers && x.name == name
    ensures name != "all" && SelectServers(servers, name).Success? ==>
              forall x :: multiset(SelectServers(servers, name).value)[x] ==
                            if x.name == name then multiset(servers)[x] else 0
  {
    forall x
      ensures x in Named(servers, name) <==> x in servers && x.name == name
      ensures multiset(Named(servers, name))[x] == if x.name == name then multiset(servers)[x] else 0
    {
      NamedMembers(servers, name, x);
      NamedCount(servers, name, x);
    }
    if Named(servers, name) != [] {
      assert Named(servers, name)[0] in Named(servers, name);
    }
  }

  // ---------------------------------------------------------------- journal order

  /** One `.`-separated component's key: minus its value when it is all digits, 0 otherwise. */
  function ComponentKey(s: string): int
  {
    if IsDigits(s) then -(Value(s) as int) else 0
  }

  /** The keys of a list of components. */
  function Keys(parts: seq<string>): (r: seq<int>)
    ensures |r| == |parts|
  {
    if parts == [] then [] else [ComponentKey(parts[0])] + Keys(parts[1..])
  }

  /** `[-int(s) if s.isnumeric() else 0 for s in x.split('.')]`. */
  function JournalKey(x: string): seq<int>
  {
    Keys(Split(x, '.'))
  }

  /** Python's `<` on lists of integers: lexicographic, a proper prefix first. */
  predicate LexLess(a: seq<int>, b: seq<int>)
  {
    if a == [] then b != []
    else if b == [] then false
    else a[0] < b[0] || (a[0] == b[0] && LexLess(a[1..], b[1..]))
  }

  /** No list is smaller than itself. */
  lemma {:induction false} LexLessIrreflexive(a: seq<int>)
    ensures !LexLess(a, a)
  {
    if a != [] {
      LexLessIrreflexive(a[1..]);
    }
  }

  /** The list order is transitive. */
  lemma {:induction false} LexLessTrans(a: seq<int>, b: seq<int>, c: seq<int>)
    requires LexLess(a, b) && LexLess(b, c)
    ensures LexLess(a, c)
  {
    if a != [] && b != [] && c != [] && a[0] == b[0] == c[0] {
      LexLessTrans(a[1..], b[1..], c[1..]);
    }
  }

  /** The list order is total: two different lists are ordered one way or the other. */
  lemma {:induction false} LexLessTotal(a: seq<int>, b: seq<int>)
    ensures LexLess(a, b) || LexLess(b, a) || a == b
  {
    if a != [] && b != [] && a[0] == b[0] {
      LexLessTotal(a[1..], b[1..]);
      if a[1..] == b[1..] {
        assert a == [a[0]] + a[1..] && b == [b[0]] + b[1..];
      }
    }
  }

  /** After a common prefix, a smaller element decides the order whatever follows. */
  lemma {:induction false} LexLessAfter(u: seq<int>, v: seq<int>, p: seq<int>, h1: int, t1: seq<int>, h2: int, t2: seq<int>)
    requires u == p + [h1] + t1 && v == p + [h2] + t2 && h1 < h2
    ensures LexLess(u, v)
  {
    assert ([h1] + t1)[0] == h1 && ([h2] + t2)[0] == h2;
    LexLessPrefix(p, [h1] + t1, [h2] + t2);
    assert u == p + ([h1] + t1);
    assert v == p + ([h2] + t2);
  }

  /** A common prefix does not change the order. */
  lemma {:induction false} LexLessPrefix(p: seq<int>, u: seq<int>, v: seq<int>)
    ensures LexLess(p + u, p + v) <==> LexLess(u, v)
  {
    if p != [] {
      LexLessPrefix(p[1..], u, v);
      assert (p + u)[0] == p[0] == (p + v)[0];
      assert (p + u)[1..] == p[1..] + u && (p + v)[1..] == p[1..] + v;
    } else {
      assert p + u == u && p + v == v;
    }
  }

  /** Keys of concatenated component lists. */
  lemma {:induction false} KeysAppend(a: seq<string>, b: seq<string>)
    ensures Keys(a + b) == Keys(a) + Keys(b)
  {
    if a != [] {
      KeysAppend(a[1..], b);
      assert (a + b)[0] == a[0] && (a + b)[1..] == a[1..] + b;
    } else {
      assert a + b == b;
    }
  }

  /** The rest of a name after an ordinal: nothing, or a `.` and more components. */
  predicate ComponentEnd(y: string)
  {
    y == [] || y[0] == '.'
  }

  /** The components after an ordinal. */
  function TailParts(y: string): seq<string>
    requires ComponentEnd(y)
  {
    if y == [] then [] else Split(y[1..], '.')
  }

  /** The key of the components after an ordinal. */
  function TailKey(y: string): seq<int>
    requires ComponentEnd(y)
  {
    Keys(TailParts(y))
  }

  /** An all-digits string followed by the end or a `.` splits off as one component. */
  lemma {:induction false} SplitOrdinal(o: string, y: string)
    requires IsDigits(o) && ComponentEnd(y)
    ensures Split(o + y, '.') == [o] + TailParts(y)
  {
    assert forall k | 0 <= k < |o| :: o[k] != '.';
    SplitNoSeparator(o, '.');
    if y == [] {
      assert o + y == o;
    } else {
      assert o + y == o + ['.'] + y[1..];
      SplitConcat(o, y[1..], '.');
    }
  }

  /** The components of a name with an ordinal component `o` after the prefix `x`. */
  lemma {:induction false} SplitAround(x: string, o: string, y: string)
    requires IsDigits(o) && ComponentEnd(y)
    ensures Split(x + "." + o + y, '.') == Split(x, '.') + [o] + TailParts(y)
  {
    assert x + "." + o + y == x + ['.'] + (o + y);
    SplitConcat(x, o + y, '.');
    SplitOrdinal(o, y);
    assert Split(x, '.') + ([o] + TailParts(y)) == Split(x, '.') + [o] + TailParts(y);
  }

  /** The key of components around one component `o`. */
  lemma {:induction false} KeysAround(p: seq<string>, o: string, t: seq<string>)
    ensures Keys(p + [o] + t) == Keys(p) + [ComponentKey(o)] + Keys(t)
  {
    KeysAppend(p + [o], t);
    KeysAppend(p, [o]);
    assert Keys([o]) == [ComponentKey(o)];
  }

  /** An all-digits component `o` contributes exactly minus its value to a name's key. */
  lemma {:induction false} OrdinalKey(x: string, o: string, y: string)
    requires IsDigits(o) && ComponentEnd(y)
    ensures JournalKey(x + "." + o + y) == JournalKey(x) + [-(Value(o) as int)] + TailKey(y)
  {
    var p, t := Split(x, '.'), TailParts(y);
    SplitAround(x, o, y);
    assert JournalKey(x + "." + o + y) == Keys(p + [o] + t);
    KeysAround(p, o, t);
    assert ComponentKey(o) == -(Value(o) as int);
  }

  /**
   * Of two journal names that differ only in an ordinal component, the one
   * with the higher ordinal has the smaller key, so it sorts first.
   */
  lemma {:induction false} HigherOrdinalFirst(x: string, a: string, y: string, b: string, z: string)
    requires IsDigits(a) && IsDigits(b) && Value(a) > Value(b)
    requires ComponentEnd(y) && ComponentEnd(z)
    ensures LexLess(JournalKey(x + "." + a + y), JournalKey(x + "." + b + z))
  {
    OrdinalKey(x, a, y);
    OrdinalKey(x, b, z);
    LexLessAfter(JournalKey(x + "." + a + y), JournalKey(x + "." + b + z),
                 JournalKey(x), -(Value(a) as int), TailKey(y), -(Value(b) as int), TailKey(z));
  }

  /** A journal name with its key, which `sorted` computes once per name. */
  type Keyed = (seq<int>, string)

  /** The names paired with their keys. */
  function Decorate(js: seq<string>): (ps: seq<Keyed>)
    ensures |ps| == |js| && forall i | 0 <= i < |js| :: ps[i] == (JournalKey(js[i]), js[i])
  {
    seq(|js|, i requires 0 <= i < |js| => (JournalKey(js[i]), js[i]))
  }

  /** The names of the pairs. */
  function Names(ps: seq<Keyed>): (js: seq<string>)
    ensures |js| == |ps| && forall i | 0 <= i < |ps| :: js[i] == ps[i].1
  {
    seq(|ps|, i requires 0 <= i < |ps| => ps[i].1)
  }

  /** Every pair holds a name and that name's key. */
  ghost predicate Decorated(ps: seq<Keyed>)
  {
    forall i | 0 <= i < |ps| :: ps[i].0 == JournalKey(ps[i].1)
  }

  /** Pairs in the order `sorted` leaves them: no key is smaller than one before it. */
  predicate Ordered(ps: seq<Keyed>)
  {
    forall i, j | 0 <= i < j < |ps| :: !LexLess(ps[j].0, ps[i].0)
  }

  /** Puts `x` after the pairs whose key is not greater than its own, as a stable sort does. */
  function InsertKeyed(x: Keyed, t: seq<Keyed>): (r: seq<Keyed>)
    ensures multiset(r) == multiset(t) + multiset{x}
  {
    if t == [] then [x]
    else if LexLess(x.0, t[0].0) then [x] + t
    else
      assert t == [t[0]] + t[1..];
      [t[0]] + InsertKeyed(x, t[1..])
  }

  /** Python's stable sort of the pairs by key. */
  function SortKeyed(ps: seq<Keyed>): (r: seq<Keyed>)
    ensures multiset(r) == multiset(ps)
  {
    if ps == [] then []
    else
      assert ps == ps[..|ps| - 1] + [ps[|ps| - 1]];
      InsertKeyed(ps[|ps| - 1], SortKeyed(ps[..|ps| - 1]))
  }

  /** `sorted(jlist, key=JournalKey)`. */
  function SortJournals(js: seq<string>): seq<string>
  {
    Names(SortKeyed(Decorate(js)))
  }

  /** Inserting into an ordered list keeps it ordered. */
  lemma {:induction false} InsertOrdered(x: Keyed, t: seq<Keyed>)
    requires Ordered(t)
    ensures Ordered(InsertKeyed(x, t))
  {
    if t != [] {
      if LexLess(x.0, t[0].0) {
        var r := [x] + t;
        forall j | 0 < j < |r|
          ensures !LexLess(r[j].0, x.0)
        {
          if LexLess(r[j].0, x.0) {
            LexLessTrans(r[j].0, x.0, t[0].0);
            if j == 1 {
              LexLessIrreflexive(t[0].0);
            }
            assert false;
          }
        }
      } else {
        InsertOrdered(x, t[1..]);
        var u := InsertKeyed(x, t[1..]);
        forall j | 0 <= j < |u|
          ensures !LexLess(u[j].0, t[0].0)
        {
          assert u[j] in multiset(u);
          if u[j] != x {
            assert u[j] in t[1..];
          }
        }
      }
    }
  }

  /** The sorted pairs are ordered by key. */
  lemma {:induction false} SortOrdered(ps: seq<Keyed>)
    ensures Ordered(SortKeyed(ps))
  {
    if ps != [] {
      SortOrdered(ps[..|ps| - 1]);
      InsertOrdered(ps[|ps| - 1], SortKeyed(ps[..|ps| - 1]));
    }
  }

  /** Reordering keeps every pair decorated. */
  lemma {:induction false} DecoratedPerm(ps: seq<Keyed>, qs: seq<Keyed>)
    requires Decorated(ps) && multiset(qs) == multiset(ps)
    ensures Decorated(qs)
  {
    forall i | 0 <= i < |qs|
      ensures qs[i].0 == JournalKey(qs[i].1)
    {
      assert qs[i] in multiset(ps);
      var j :| 0 <= j < |ps| && ps[j] == qs[i];
    }
  }

  /** The names of an ordered decorated list are ordered by their keys. */
  lemma {:induction false} OrderedNames(ps: seq<Keyed>)
    requires Decorated(ps) && Ordered(ps)
    ensures KeyOrdered(Names(ps))
  {
  }

  /** Names in the order `sorted` leaves them: no name has a smaller key than one before it. */
  predicate KeyOrdered(r: seq<string>)
  {
    forall i, j | 0 <= i < j < |r| :: !LexLess(JournalKey(r[j]), JournalKey(r[i]))
  }

  /** The sorted journals are ordered by key. */
  lemma {:induction false} SortJournalsOrdered(js: seq<string>)
    ensures KeyOrdered(SortJournals(js))
  {
    var ps := Decorate(js);
    SortOrdered(ps);
    DecoratedPerm(ps, SortKeyed(ps));
    OrderedNames(SortKeyed(ps));
  }

  /** The names of two lists of pairs one after the other. */
  lemma {:induction false} NamesAppend(a: seq<Keyed>, b: seq<Keyed>)
    ensures Names(a + b) == Names(a) + Names(b)
  {
    assert forall i | 0 <= i < |a| :: (a + b)[i] == a[i];
    assert forall i | |a| <= i < |a| + |b| :: (a + b)[i] == b[i - |a|];
  }

  /** Inserting a pair adds its name to the names. */
  lemma {:induction false} InsertNames(x: Keyed, t: seq<Keyed>)
    ensures multiset(Names(InsertKeyed(x, t))) == multiset(Names(t)) + multiset{x.1}
  {
    if t == [] {
      assert Names([x]) == [x.1];
    } else if LexLess(x.0, t[0].0) {
      NamesAppend([x], t);
      assert Names([x]) == [x.1];
    } else {
      InsertNames(x, t[1..]);
      NamesAppend([t[0]], InsertKeyed(x, t[1..]));
      NamesAppend([t[0]], t[1..]);
      assert Names([t[0]]) == [t[0].1];
      assert [t[0]] + t[1..] == t;
    }
  }

  /** Sorting reorders the names. */
  lemma {:induction false} SortNames(ps: seq<Keyed>)
    ensures multiset(Names(SortKeyed(ps))) == multiset(Names(ps))
  {
    if ps != [] {
      var init, last := ps[..|ps| - 1], ps[|ps| - 1];
      SortNames(init);
      SortKeyedLast(ps);
      InsertNames(last, SortKeyed(init));
      NamesLast(ps);
    }
  }

  /** The names of a list of pairs: those before the last pair, then the last one's. */
  lemma {:induction false} NamesLast(ps: seq<Keyed>)
    requires ps != []
    ensures Names(ps) == Names(ps[..|ps| - 1]) + [ps[|ps| - 1].1]
  {
  }

  /** `sorted` returns the same names, each as often as given. */
  lemma {:induction false} SortJournalsPerm(js: seq<string>)
    ensures multiset(SortJournals(js)) == multiset(js)
  {
    SortNames(Decorate(js));
    assert Names(Decorate(js)) == js;
  }

  /** The pairs that have key `k`, in order. */
  function Pick(ps: seq<Keyed>, k: seq<int>): seq<Keyed>
  {
    if ps == [] then [] else (if ps[0].0 == k then [ps[0]] else []) + Pick(ps[1..], k)
  }

  /** Picking the pairs of one key distributes over concatenation. */
  lemma {:induction false} PickAppend(a: seq<Keyed>, b: seq<Keyed>, k: seq<int>)
    ensures Pick(a + b, k) == Pick(a, k) + Pick(b, k)
  {
    if a != [] {
      PickAppend(a[1..], b, k);
      assert (a + b)[0] == a[0] && (a + b)[1..] == a[1..] + b;
    } else {
      assert a + b == b;
    }
  }

  /** An ordered list whose first key exceeds `k` holds no pair of key `k`. */
  lemma {:induction false} PickAbove(t: seq<Keyed>, k: seq<int>)
    requires Ordered(t) && t != [] && LexLess(k, t[0].0)
    ensures Pick(t, k) == []
  {
    LexLessIrreflexive(t[0].0);
    if |t| > 1 {
      assert Ordered(t[1..]);
      assert !LexLess(t[1].0, t[0].0);
      LexLessTotal(k, t[1].0);
      if LexLess(t[1].0, k) {
        LexLessTrans(t[1].0, k, t[0].0);
      }
      PickAbove(t[1..], k);
    }
  }

  /** Inserting a pair puts it after every pair of the same key. */
  lemma {:induction false} InsertStable(x: Keyed, t: seq<Keyed>, k: seq<int>)
    requires Ordered(t)
    ensures Pick(InsertKeyed(x, t), k) == Pick(t, k) + (if x.0 == k then [x] else [])
  {
    if t == [] {
      PickOne(x, k);
    } else if LexLess(x.0, t[0].0) {
      InsertStableBefore(x, t, k);
    } else {
      OrderedTail(t);
      InsertStable(x, t[1..], k);
      InsertStableAfter(x, t, k);
    }
  }

  /** A pair inserted in front of an ordered list whose keys all exceed its own. */
  lemma {:induction false} InsertStableBefore(x: Keyed, t: seq<Keyed>, k: seq<int>)
    requires Ordered(t) && t != [] && LexLess(x.0, t[0].0)
    ensures Pick(InsertKeyed(x, t), k) == Pick(t, k) + (if x.0 == k then [x] else [])
  {
    PickCons(x, t, k);
    if x.0 == k {
      PickAbove(t, k);
    }
  }

  /** A pair inserted past the first pair, where the rest of the list already keeps it last of its key. */
  lemma {:induction false} InsertStableAfter(x: Keyed, t: seq<Keyed>, k: seq<int>)
    requires t != [] && !LexLess(x.0, t[0].0)
    requires Pick(InsertKeyed(x, t[1..]), k) == Pick(t[1..], k) + (if x.0 == k then [x] else [])
    ensures Pick(InsertKeyed(x, t), k) == Pick(t, k) + (if x.0 == k then [x] else [])
  {
    var hx: seq<Keyed> := if x.0 == k then [x] else [];
    InsertKeyedAfter(x, t);
    PickAfterFirst(t[0], InsertKeyed(x, t[1..]), Pick(t[1..], k), hx, k);
    PickFirst(t, k);
  }

  /** Inserting past the first pair. */
  lemma {:induction false} InsertKeyedAfter(x: Keyed, t: seq<Keyed>)
    requires t != [] && !LexLess(x.0, t[0].0)
    ensures InsertKeyed(x, t) == [t[0]] + InsertKeyed(x, t[1..])
  {
  }

  /** Putting a pair in front of a list adds that pair, if it has key `k`, in front of the picked ones. */
  lemma {:induction false} PickAfterFirst(y: Keyed, u: seq<Keyed>, r: seq<Keyed>, hx: seq<Keyed>, k: seq<int>)
    requires Pick(u, k) == r + hx
    ensures Pick([y] + u, k) == (if y.0 == k then [y] else []) + r + hx
  {
    PickCons(y, u, k);
    var h: seq<Keyed> := if y.0 == k then [y] else [];
    assert h + (r + hx) == h + r + hx;
  }

  /** The rest of an ordered list is ordered. */
  lemma {:induction false} OrderedTail(t: seq<Keyed>)
    requires Ordered(t) && t != []
    ensures Ordered(t[1..])
  {
    forall i, j | 0 <= i < j < |t| - 1
      ensures !LexLess(t[1..][j].0, t[1..][i].0)
    {
      assert t[1..][j] == t[j + 1] && t[1..][i] == t[i + 1];
    }
  }

  /** The pairs of key `k`: the first pair if it has that key, then those of the rest. */
  lemma {:induction false} PickFirst(t: seq<Keyed>, k: seq<int>)
    requires t != []
    ensures Pick(t, k) == (if t[0].0 == k then [t[0]] else []) + Pick(t[1..], k)
  {
  }

  /** The pairs of key `k` in a list with a pair in front. */
  lemma {:induction false} PickCons(x: Keyed, t: seq<Keyed>, k: seq<int>)
    ensures Pick([x] + t, k) == (if x.0 == k then [x] else []) + Pick(t, k)
  {
    assert ([x] + t)[0] == x && ([x] + t)[1..] == t;
  }

  /** Inserting into sorted pairs puts the new pair after every sorted pair of the same key. */
  lemma {:induction false} InsertSortedStable(x: Keyed, ps: seq<Keyed>, k: seq<int>)
    ensures Pick(InsertKeyed(x, SortKeyed(ps)), k) == Pick(SortKeyed(ps), k) + (if x.0 == k then [x] else [])
  {
    SortOrdered(ps);
    InsertStable(x, SortKeyed(ps), k);
  }

  /** The sort is stable: the pairs of each key keep their input order. */
  lemma {:induction false} SortStable(ps: seq<Keyed>, k: seq<int>)
    ensures Pick(SortKeyed(ps), k) == Pick(ps, k)
  {
    if ps != [] {
      var init, last := ps[..|ps| - 1], ps[|ps| - 1];
      SortStable(init, k);
      InsertSortedStable(last, init, k);
      SortKeyedLast(ps);
      PickLast(ps, k);
    }
  }

  /** How the sort takes the last pair. */
  lemma {:induction false} SortKeyedLast(ps: seq<Keyed>)
    requires ps != []
    ensures SortKeyed(ps) == InsertKeyed(ps[|ps| - 1], SortKeyed(ps[..|ps| - 1]))
  {
  }

  /** The pairs of key `k`: those before the last pair, then the last one if it has that key. */
  lemma {:induction false} PickLast(ps: seq<Keyed>, k: seq<int>)
    requires ps != []
    ensures Pick(ps, k) == Pick(ps[..|ps| - 1], k) + (if ps[|ps| - 1].0 == k then [ps[|ps| - 1]] else [])
  {
    var init, last := ps[..|ps| - 1], ps[|ps| - 1];
    assert ps == init + [last];
    PickAppend(init, [last], k);
    PickOne(last, k);
  }

  /** The pairs of key `k` in a one-pair list. */
  lemma {:induction false} PickOne(x: Keyed, k: seq<int>)
    ensures Pick([x], k) == if x.0 == k then [x] else []
  {
    assert [x][1..] == [];
  }

  /** The names that have key `k`, in order. */
  function WithKey(js: seq<string>, k: seq<int>): seq<string>
  {
    if js == [] then [] else (if JournalKey(js[0]) == k then [js[0]] else []) + WithKey(js[1..], k)
  }

  /** For decorated pairs, picking by key and then naming is naming and then picking by key. */
  lemma {:induction false} WithKeyNames(ps: seq<Keyed>, k: seq<int>)
    requires Decorated(ps)
    ensures WithKey(Names(ps), k) == Names(Pick(ps, k))
  {
    if ps != [] {
      assert Decorated(ps[1..]);
      WithKeyNames(ps[1..], k);
      var h: seq<Keyed> := if ps[0].0 == k then [ps[0]] else [];
      NamesAppend(h, Pick(ps[1..], k));
      NamesFirst(ps);
      assert Names(h) == if ps[0].0 == k then [ps[0].1] else [];
      WithKeyFirst(Names(ps), k);
    }
  }

  /** The names of a list of pairs: the first pair's, then those of the rest. */
  lemma {:induction false} NamesFirst(ps: seq<Keyed>)
    requires ps != []
    ensures Names(ps)[0] == ps[0].1 && Names(ps)[1..] == Names(ps[1..])
  {
  }

  /** The names of key `k`: the first name if it has that key, then those of the rest. */
  lemma {:induction false} WithKeyFirst(js: seq<string>, k: seq<int>)
    requires js != []
    ensures WithKey(js, k) == (if JournalKey(js[0]) == k then [js[0]] else []) + WithKey(js[1..], k)
  {
  }

  /** `sorted` is stable: the journals of each key keep their input order. */
  lemma {:induction false} SortJournalsStable(js: seq<string>, k: seq<int>)
    ensures WithKey(SortJournals(js), k) == WithKey(js, k)
  {
    var ps := Decorate(js);
    assert Decorated(ps);
    DecoratedPerm(ps, SortKeyed(ps));
    WithKeyNames(SortKeyed(ps), k);
    SortStable(ps, k);
    WithKeyNames(ps, k);
    assert Names(ps) == js;
  }

  /**
   * In the sorted journals, of two names that differ only in an ordinal, the
   * higher ordinal comes first.
   */
  lemma {:induction false} NewestFirst(js: seq<string>, i: nat, j: nat, x: string, a: string, y: string, b: string, z: string)
    requires i < |SortJournals(js)| && j < |SortJournals(js)|
    requires SortJournals(js)[i] == x + "." + a + y && SortJournals(js)[j] == x + "." + b + z
    requires IsDigits(a) && IsDigits(b) && Value(a) > Value(b)
    requires ComponentEnd(y) && ComponentEnd(z)
    ensures i < j
  {
    HigherOrdinalFirst(x, a, y, b, z);
    SortJournalsOrdered(js);
    if j == i {
      LexLessIrreflexive(JournalKey(x + "." + a + y));
    }
  }

  // ---------------------------------------------------------------- journal list

  /** `os.path.join(a, b)`. */
  function PathJoin(a: string, b: string): (r: string)
    ensures |b| <= |r| && r[|r| - |b|..] == b
    ensures b != [] && b[0] == '/' ==> r == b
    ensures (b == [] || b[0] != '/') ==> |a| <= |r| && r[..|a|] == a
    ensures (b == [] || b[0] != '/') && (a == [] || a[|a| - 1] == '/') ==> |r| == |a| + |b|
    ensures (b == [] || b[0] != '/') && a != [] && a[|a| - 1] != '/' ==> |r| == |a| + 1 + |b| && r[|a|] == '/'
  {
    if b != [] && b[0] == '/' then b
    else if a == [] || a[|a| - 1] == '/' then a + b
    else a + "/" + b
  }

  /** The glob pattern of a server's journals, or None when it has no `journalPrefix`. */
  function JournalPattern(s: Server): Option<string>
    requires Rooted(s)
  {
    if "journalPrefix" !in s.config || s.config["journalPrefix"] == [] then None
    else
      var prefix := s.config["journalPrefix"];
      var base := if prefix[0] != '/' then PathJoin(s.config["root"], prefix) else prefix;
      Some(base + ".jnl*")
  }

  /**
   * `P4Server.Journals` (lines 52-65): the real paths of the files matching the
   * journal pattern, which `glob` stands for, sorted newest first.
   */
  function Journals(s: Server, glob: string -> seq<string>): seq<string>
    requires Rooted(s)
  {
    match JournalPattern(s)
    case None => []
    case Some(pattern) => SortJournals(glob(pattern))
  }

  /** The journals are the globbed paths, each as often as globbed, ordered by key and stable among equal keys. */
  lemma {:induction false} JournalsSpec(s: Server, glob: string -> seq<string>)
    requires Rooted(s)
    ensures JournalPattern(s).None? ==> Journals(s, glob) == []
    ensures JournalPattern(s).Some? ==> multiset(Journals(s, glob)) == multiset(glob(JournalPattern(s).value))
    ensures KeyOrdered(Journals(s, glob))
    ensures JournalPattern(s).Some? ==>
              forall k :: WithKey(Journals(s, glob), k) == WithKey(glob(JournalPattern(s).value), k)
  {
    if JournalPattern(s).Some? {
      SortJournalsOrdered(glob(JournalPattern(s).value));
      SortJournalsPerm(glob(JournalPattern(s).value));
      forall k
        ensures WithKey(Journals(s, glob), k) == WithKey(glob(JournalPattern(s).value), k)
      {
        SortJournalsStable(glob(JournalPattern(s).value), k);
      }
    }
  }

  // ---------------------------------------------------------------- rotation

  /** What happens to the journal at one index of the list. */
  datatype Category = Skipped | Kept | Deleted

  /** The branches of lines 93-107 for index `n`. */
  function Classify(n: nat, skip: int, keep: int): Category
  {
    if skip < 0 || n < skip then Skipped
    else if keep < 0 || n < keep then Kept
    else Deleted
  }

  /** `journal[-3:]`: the last three characters, or all of a shorter name. */
  function LastThree(j: string): string
  {
    if |j| < 3 then j else j[|j| - 3..]
  }

  /** `journal[-3:] != '.gz'`: a kept journal that gets compressed. */
  predicate NeedsGzip(j: string)
  {
    LastThree(j) != ".gz"
  }

  /** The counters of lines 91-107. */
  datatype Tally = Tally(skipped: nat, kept: nat, compressed: nat, deleted: nat)

  /** A file operation: `gzip_file(src, dst)` or `unlink(path)`. */
  datatype Action = Gzip(src: string, dst: string) | Unlink(path: string)

  /** The counters after the journal `j` at index `n`. */
  function Count(t: Tally, n: nat, j: string, skip: int, keep: int): Tally
  {
    match Classify(n, skip, keep)
    case Skipped => t.(skipped := t.skipped + 1)
    case Kept => t.(kept := t.kept + 1, compressed := if NeedsGzip(j) then t.compressed + 1 else t.compressed)
    case Deleted => t.(deleted := t.deleted + 1)
  }

  /** The file operations for the journal `j` at index `n`. */
  function ActionsAt(n: nat, j: string, skip: int, keep: int): seq<Action>
  {
    match Classify(n, skip, keep)
    case Skipped => []
    case Kept => if NeedsGzip(j) then [Gzip(j, j + ".gz")] else []
    case Deleted => [Unlink(j)]
  }

  /** The counters the loop reaches over the journals. */
  function TallyOf(js: seq<string>, skip: int, keep: int): Tally
  {
    if js == [] then Tally(0, 0, 0, 0)
    else Count(TallyOf(js[..|js| - 1], skip, keep), |js| - 1, js[|js| - 1], skip, keep)
  }

  /** The file operations of a real run over the journals, in order. */
  function PlanOf(js: seq<string>, skip: int, keep: int): seq<Action>
  {
    if js == [] then []
    else PlanOf(js[..|js| - 1], skip, keep) + ActionsAt(|js| - 1, js[|js| - 1], skip, keep)
  }

  /**
   * The loop of lines 91-107: counts each journal into one category and, unless
   * `dryRun`, compresses or deletes it. The counters do not depend on `dryRun`.
   */
  method MaintainJournals(js: seq<string>, skip: int, keep: int, dryRun: bool)
    returns (t: Tally, actions: seq<Action>)
    ensures t == TallyOf(js, skip, keep)
    ensures actions == if dryRun then [] else PlanOf(js, skip, keep)
  {
    var skipped, kept, compressed, deleted := 0, 0, 0, 0;
    actions := [];
    for n := 0 to |js|
      invariant Tally(skipped, kept, compressed, deleted) == TallyOf(js[..n], skip, keep)
      invariant actions == if dryRun then [] else PlanOf(js[..n], skip, keep)
    {
      assert js[..n + 1][..n] == js[..n];
      var journal := js[n];
      if skip < 0 || n < skip {
        skipped := skipped + 1;
      } else if keep < 0 || n < keep {
        kept := kept + 1;
        if LastThree(journal) != ".gz" {
          if !dryRun {
            actions := actions + [Gzip(journal, journal + ".gz")];
          }
          compressed := compressed + 1;
        }
      } else {
        if !dryRun {
          actions := actions + [Unlink(journal)];
        }
        deleted := deleted + 1;
      }
    }
    assert js[..|js|] == js;
    t := Tally(skipped, kept, compressed, deleted);
  }

  /** max(lo, min(hi, len)) for lo >= 0: the part of `0..len` below `hi` and at or above `lo`. */
  function Between(lo: nat, hi: int, len: nat): nat
  {
    var top := if hi < lo then lo else if hi > len then (if len < lo then lo else len) else hi;
    top - lo
  }

  /**
   * The counters in closed form: the first `skip` journals (all of them when
   * `skip < 0`) are skipped, the next ones up to index `keep` (all of them when
   * `keep < 0`) are kept, the rest deleted; together they are every journal.
   */
  lemma {:induction false} TallyClosedForm(js: seq<string>, skip: int, keep: int)
    ensures var t := TallyOf(js, skip, keep);
      && t.skipped == (if skip < 0 then |js| else Between(0, skip, |js|))
      && t.kept == (if skip < 0 then 0 else if keep < 0 then |js| - Between(0, skip, |js|)
                    else Between(Between(0, skip, |js|), keep, |js|))
      && t.skipped + t.kept + t.deleted == |js|
      && t.compressed <= t.kept
      && t.compressed == |Compressible(js, skip, keep)|
  {
    if js != [] {
      TallyClosedForm(js[..|js| - 1], skip, keep);
    }
    CompressedCount(js, skip, keep);
  }

  /**
   * `compressed` counts the `gzip_file` calls and `deleted` the `unlink` calls of
   * a real run; every compression turns a kept journal not ending in `.gz` into
   * that name with `.gz` appended.
   */
  lemma {:induction false} PlanCounts(js: seq<string>, skip: int, keep: int)
    ensures |PlanOf(js, skip, keep)| == TallyOf(js, skip, keep).compressed + TallyOf(js, skip, keep).deleted
    ensures Gzips(PlanOf(js, skip, keep)) == TallyOf(js, skip, keep).compressed
    ensures forall i | 0 <= i < |PlanOf(js, skip, keep)| :: PlanOf(js, skip, keep)[i].Gzip? ==>
              PlanOf(js, skip, keep)[i].src in js && NeedsGzip(PlanOf(js, skip, keep)[i].src) &&
              PlanOf(js, skip, keep)[i].dst == PlanOf(js, skip, keep)[i].src + ".gz"
    ensures forall i | 0 <= i < |PlanOf(js, skip, keep)| :: PlanOf(js, skip, keep)[i].Unlink? ==>
              PlanOf(js, skip, keep)[i].path in js
  {
    if js != [] {
      var init := js[..|js| - 1];
      PlanCounts(init, skip, keep);
      var p: seq<Action>, a: seq<Action> := PlanOf(init, skip, keep), ActionsAt(|js| - 1, js[|js| - 1], skip, keep);
      GzipsAppend(p, a);
      forall i | 0 <= i < |p + a|
        ensures (p + a)[i].Gzip? ==> (p + a)[i].src in js && NeedsGzip((p + a)[i].src) && (p + a)[i].dst == (p + a)[i].src + ".gz"
        ensures (p + a)[i].Unlink? ==> (p + a)[i].path in js
      {
        if i < |p| {
          assert (p + a)[i] == p[i];
          if p[i].Gzip? {
            assert p[i].src in init;
          } else {
            assert p[i].path in init;
          }
        } else {
          assert (p + a)[i] == a[i - |p|];
        }
      }
    }
  }

  /** The number of compressions among the operations. */
  function Gzips(actions: seq<Action>): nat
  {
    if actions == [] then 0 else Gzips(actions[..|actions| - 1]) + (if actions[|actions| - 1].Gzip? then 1 else 0)
  }

  /** Counting compressions distributes over concatenation. */
  lemma {:induction false} GzipsAppend(a: seq<Action>, b: seq<Action>)
    ensures Gzips(a + b) == Gzips(a) + Gzips(b)
    decreases |b|
  {
    if b != [] {
      GzipsAppend(a, b[..|b| - 1]);
      assert (a + b)[..|a + b| - 1] == a + b[..|b| - 1];
    } else {
      assert a + b == a;
    }
  }

  /** The indices of the kept journals that do not end in `.gz`. */
  function Compressible(js: seq<string>, skip: int, keep: int): set<nat>
  {
    set n: nat | n < |js| && Classify(n, skip, keep) == Kept && NeedsGzip(js[n])
  }

  /** The compressible indices of a list: those of the list without its last journal, and that one if it qualifies. */
  lemma {:induction false} CompressibleLast(js: seq<string>, skip: int, keep: int)
    requires js != []
    ensures |js| - 1 !in Compressible(js[..|js| - 1], skip, keep)
    ensures Compressible(js, skip, keep) ==
              Compressible(js[..|js| - 1], skip, keep) +
              (if Classify(|js| - 1, skip, keep) == Kept && NeedsGzip(js[|js| - 1]) then {|js| - 1} else {})
  {
    var m := |js| - 1;
    var init := js[..m];
    forall n: nat | n < m
      ensures init[n] == js[n]
    {
    }
  }

  /** `compressed` counts exactly the kept journals that do not end in `.gz`. */
  lemma {:induction false} CompressedCount(js: seq<string>, skip: int, keep: int)
    ensures TallyOf(js, skip, keep).compressed == |Compressible(js, skip, keep)|
    decreases |js|
  {
    if js != [] {
      CompressedCount(js[..|js| - 1], skip, keep);
      CompressibleLast(js, skip, keep);
    }
  }

  /** The journal at index `n` is compressed (kept and not ending in `.gz`) or deleted by a real run. */
  predicate Touches(n: nat, j: string, skip: int, keep: int)
  {
    (Classify(n, skip, keep) == Kept && NeedsGzip(j)) || Classify(n, skip, keep) == Deleted
  }

  /** The indices of the journals a real run compresses or deletes, in list order. */
  function Touched(js: seq<string>, skip: int, keep: int): seq<nat>
  {
    if js == [] then []
    else Touched(js[..|js| - 1], skip, keep) + (if Touches(|js| - 1, js[|js| - 1], skip, keep) then [|js| - 1] else [])
  }

  /** The touched indices increase and are exactly the indices of the journals compressed or deleted. */
  lemma {:induction false} TouchedIndices(js: seq<string>, skip: int, keep: int)
    ensures forall i | 0 <= i < |Touched(js, skip, keep)| :: Touched(js, skip, keep)[i] < |js|
    ensures forall i, j | 0 <= i < j < |Touched(js, skip, keep)| :: Touched(js, skip, keep)[i] < Touched(js, skip, keep)[j]
    ensures forall n | 0 <= n < |js| :: n in Touched(js, skip, keep) <==> Touches(n, js[n], skip, keep)
    decreases |js|
  {
    if js != [] {
      var m := |js| - 1;
      var init := js[..m];
      TouchedIndices(init, skip, keep);
      var t := Touched(init, skip, keep);
      var e: seq<nat> := if Touches(m, js[m], skip, keep) then [m] else [];
      assert Touched(js, skip, keep) == t + e;
      forall i | 0 <= i < |t + e|
        ensures (t + e)[i] < |js|
      {
        if i < |t| {
          assert (t + e)[i] == t[i];
        }
      }
      forall i, j | 0 <= i < j < |t + e|
        ensures (t + e)[i] < (t + e)[j]
      {
        assert (t + e)[i] == t[i];
        if j < |t| {
          assert (t + e)[j] == t[j];
        }
      }
      forall n | 0 <= n < |js|
        ensures n in t + e <==> Touches(n, js[n], skip, keep)
      {
        if n < m {
          assert init[n] == js[n];
        } else {
          assert m !in t;
        }
      }
    }
  }

  /**
   * The i-th file operation of a real run is that of the i-th touched journal:
   * `gzip_file(j, j + '.gz')` for a kept one, `unlink(j)` for a deleted one.
   */
  lemma {:induction false} PlanIndexed(js: seq<string>, skip: int, keep: int)
    ensures |PlanOf(js, skip, keep)| == |Touched(js, skip, keep)|
    ensures forall i | 0 <= i < |Touched(js, skip, keep)| ::
              Touched(js, skip, keep)[i] < |js| &&
              PlanOf(js, skip, keep)[i] ==
                if Classify(Touched(js, skip, keep)[i], skip, keep) == Kept
                then Gzip(js[Touched(js, skip, keep)[i]], js[Touched(js, skip, keep)[i]] + ".gz")
                else Unlink(js[Touched(js, skip, keep)[i]])
    decreases |js|
  {
    if js != [] {
      var m := |js| - 1;
      var init := js[..m];
      PlanIndexed(init, skip, keep);
      TouchedIndices(init, skip, keep);
      var t := Touched(init, skip, keep);
      var e: seq<nat> := if Touches(m, js[m], skip, keep) then [m] else [];
      var p, a := PlanOf(init, skip, keep), ActionsAt(m, js[m], skip, keep);
      assert Touched(js, skip, keep) == t + e && PlanOf(js, skip, keep) == p + a;
      forall i | 0 <= i < |t + e|
        ensures (t + e)[i] < |js| &&
                (p + a)[i] == if Classify((t + e)[i], skip, keep) == Kept
                              then Gzip(js[(t + e)[i]], js[(t + e)[i]] + ".gz")
                              else Unlink(js[(t + e)[i]])
      {
        if i < |t| {
          assert (t + e)[i] == t[i] && (p + a)[i] == p[i];
          assert init[t[i]] == js[t[i]];
        } else {
          assert (t + e)[i] == m && (p + a)[i] == a[0];
        }
      }
    }
  }

  /** A negative `keep` (the default) deletes nothing. */
  lemma {:induction false} NegativeKeepDeletesNothing(js: seq<string>, skip: int, keep: int)
    requires keep < 0
    ensures TallyOf(js, skip, keep).deleted == 0
    ensures forall i | 0 <= i < |PlanOf(js, skip, keep)| :: PlanOf(js, skip, keep)[i].Gzip?
  {
    if js != [] {
      NegativeKeepDeletesNothing(js[..|js| - 1], skip, keep);
      var p: seq<Action> := PlanOf(js[..|js| - 1], skip, keep);
      var a: seq<Action> := ActionsAt(|js| - 1, js[|js| - 1], skip, keep);
      forall i | 0 <= i < |p + a|
        ensures (p + a)[i].Gzip?
      {
        if i < |p| {
          assert (p + a)[i] == p[i];
        } else {
          assert (p + a)[i] == a[i - |p|];
        }
      }
    }
  }

  /** A negative `skip` skips every journal and touches no file. */
  lemma {:induction false} NegativeSkipSkipsAll(js: seq<string>, skip: int, keep: int)
    requires skip < 0
    ensures TallyOf(js, skip, keep) == Tally(|js|, 0, 0, 0)
    ensures PlanOf(js, skip, keep) == []
  {
    if js != [] {
      NegativeSkipSkipsAll(js[..|js| - 1], skip, keep);
    }
  }

  /** The "remaining on disk" count of line 110: the journals not deleted. */
  function Remaining(t: Tally): nat
  {
    t.skipped + t.kept
  }

  /** What remains is every journal but the deleted ones. */
  lemma {:induction false} RemainingCount(js: seq<string>, skip: int, keep: int)
    ensures Remaining(TallyOf(js, skip, keep)) == |js| - TallyOf(js, skip, keep).deleted
  {
    TallyClosedForm(js, skip, keep);
  }

  // ---------------------------------------------------------------- the command

  /** What the command does for one server. */
  datatype Report = Report(server: Server, journals: seq<string>, tally: Tally, actions: seq<Action>)

  /** The report the rotation rules give for a server. */
  function ReportOf(s: Server, glob: string -> seq<string>, skip: int, keep: int, dryRun: bool): Report
    requires Rooted(s)
  {
    var js := Journals(s, glob);
    Report(s, js, TallyOf(js, skip, keep), if dryRun then [] else PlanOf(js, skip, keep))
  }

  /**
   * Lines 84-110 of `p4_maintenance`: select the requested server (or all),
   * then rotate each selected server's journals in list order.
   */
  method MaintainServers(servers: seq<Server>, glob: string -> seq<string>, server: string, skip: int, keep: int,
                         dryRun: bool)
    returns (r: Result<seq<Report>, Error>)
    requires forall x | x in servers :: Rooted(x)
    ensures var selected := SelectServers(servers, server);
            && (selected.Failure? ==> r == Failure(selected.error))
            && (selected.Success? ==>
                  && r.Success? && |r.value| == |selected.value|
                  && forall i | 0 <= i < |selected.value| ::
                       Rooted(selected.value[i]) &&
                       r.value[i] == ReportOf(selected.value[i], glob, skip, keep, dryRun))
  {
    var selected :- SelectServers(servers, server);
    SelectedRooted(servers, server);
    var reports := MaintainAll(selected, glob, skip, keep, dryRun);
    ReportsOfAt(selected, glob, skip, keep, dryRun);
    return Success(reports);
  }

  /** The loop of line 89 over the selected servers. */
  method MaintainAll(selected: seq<Server>, glob: string -> seq<string>, skip: int, keep: int, dryRun: bool)
    returns (reports: seq<Report>)
    requires forall i | 0 <= i < |selected| :: Rooted(selected[i])
    ensures reports == ReportsOf(selected, glob, skip, keep, dryRun)
  {
    reports := [];
    for i := 0 to |selected|
      invariant reports == ReportsOf(selected[..i], glob, skip, keep, dryRun)
    {
      assert selected[..i + 1][..i] == selected[..i];
      var report := MaintainServer(selected[i], glob, skip, keep, dryRun);
      reports := reports + [report];
    }
    assert selected[..|selected|] == selected;
  }

  /** The reports for servers that all have a `root`, in order. */
  function ReportsOf(ss: seq<Server>, glob: string -> seq<string>, skip: int, keep: int, dryRun: bool): seq<Report>
    requires forall i | 0 <= i < |ss| :: Rooted(ss[i])
  {
    if ss == [] then []
    else ReportsOf(ss[..|ss| - 1], glob, skip, keep, dryRun) + [ReportOf(ss[|ss| - 1], glob, skip, keep, dryRun)]
  }

  /** One report per server, each the report of that server. */
  lemma {:induction false} ReportsOfAt(ss: seq<Server>, glob: string -> seq<string>, skip: int, keep: int, dryRun: bool)
    requires forall i | 0 <= i < |ss| :: Rooted(ss[i])
    ensures |ReportsOf(ss, glob, skip, keep, dryRun)| == |ss|
    ensures forall i | 0 <= i < |ss| :: ReportsOf(ss, glob, skip, keep, dryRun)[i] == ReportOf(ss[i], glob, skip, keep, dryRun)
  {
    if ss != [] {
      var init := ss[..|ss| - 1];
      ReportsOfAt(init, glob, skip, keep, dryRun);
      forall i | 0 <= i < |init|
        ensures ReportsOf(ss, glob, skip, keep, dryRun)[i] == ReportOf(ss[i], glob, skip, keep, dryRun)
      {
        assert init[i] == ss[i];
      }
    }
  }

  /** Every selected server is one of the listed servers, so it has a `root`. */
  lemma {:induction false} SelectedRooted(servers: seq<Server>, server: string)
    requires forall x | x in servers :: Rooted(x)
    requires SelectServers(servers, server).Success?
    ensures forall i | 0 <= i < |SelectServers(servers, server).value| :: Rooted(SelectServers(servers, server).value[i])
  {
    var selected := SelectServers(servers, server).value;
    forall i | 0 <= i < |selected|
      ensures Rooted(selected[i])
    {
      if server != "all" {
        NamedMembers(servers, server, selected[i]);
      }
    }
  }

  /** The body of the server loop: list one server's journals and rotate them. */
  method MaintainServer(s: Server, glob: string -> seq<string>, skip: int, keep: int, dryRun: bool) returns (r: Report)
    requires Rooted(s)
    ensures r == ReportOf(s, glob, skip, keep, dryRun)
  {
    var js := Journals(s, glob);
    var t, actions := MaintainJournals(js, skip, keep, dryRun);
    r := Report(s, js, t, actions);
  }

  /**
   * `p4_maintenance` (lines 83-110): enumerate the servers, then select and
   * rotate them; the enumeration's error, if any, comes first.
   */
  method Maintain(lines: seq<string>, show: (string, string) -> seq<(string, string)>, returncode: int,
                  glob: string -> seq<string>, server: string, skip: int, keep: int, dryRun: bool)
    returns (r: Result<seq<Report>, Error>)
    ensures ServersOf(lines, show, returncode).Failure? ==> r == Failure(ServersOf(lines, show, returncode).error)
    ensures ServersOf(lines, show, returncode).Success? ==>
              var selected := SelectServers(ServersOf(lines, show, returncode).value, server);
              && (selected.Failure? ==> r == Failure(selected.error))
              && (selected.Success? ==>
                    && r.Success? && |r.value| == |selected.value|
                    && forall i | 0 <= i < |selected.value| ::
                         Rooted(selected.value[i]) &&
                         r.value[i] == ReportOf(selected.value[i], glob, skip, keep, dryRun))
  {
    var servers :- Enumerate(lines, show, returncode);
    ServersRooted(lines, show, returncode);
    r := MaintainServers(servers, glob, server, skip, keep, dryRun);
  }
}
