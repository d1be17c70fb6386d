/**
 * The generator itself: an append-only output buffer and the methods that fill it,
 * proved to write exactly the rendering of the emitter's statements.
 */
module Generation {
  import opened Wrappers
  import opened Strings
  import opened Sanitizer
  import opened Literals
  import opened Emitter
  import opened Render
  import opened Loader

  /** Why a run stops: a test file that cannot be read or decoded, or a panic while writing a test. */
  datatype Fatal = Unreadable(file: string) | Aborted(panic: Panic)

  /** Some order listing every key of keys once. */
  ghost function EnumerationOf(keys: set<string>): (order: seq<string>)
    ensures IsEnumeration(order, keys)
    decreases keys
  {
    if keys == {} then []
    else
      var k :| k in keys;
      var rest := EnumerationOf(keys - {k});
      [k] + rest
  }

  /** Some iteration order fitting the vector's property mapping. */
  ghost function SomeOrder(v: TestVector): (order: seq<string>)
    ensures OrderFits(v, order)
  {
    if PropertiesKey in v.options && v.options[PropertiesKey].Map?
    then EnumerationOf(v.options[PropertiesKey].entries.Keys)
    else []
  }

  /** The first |fs| tests, each iterated in orders[i], are emitted as fs[i]. */
  ghost predicate EmitsFirst(tests: seq<TestVector>, orders: seq<seq<string>>, fs: seq<TestFunc>) {
    && |orders| == |fs| <= |tests|
    && forall i :: 0 <= i < |fs| ==>
         OrderFits(tests[i], orders[i]) && Emit(tests[i], orders[i]) == Success(fs[i])
  }

  /** Every test is emitted: tests[i], iterated in orders[i], as fs[i]. */
  ghost predicate EmitsAll(tests: seq<TestVector>, orders: seq<seq<string>>, fs: seq<TestFunc>) {
    EmitsFirst(tests, orders, fs) && |fs| == |tests|
  }

  /** The vectors of the named files, file after file, each file's in its own order. */
  ghost function Vectors(names: seq<string>, files: map<string, seq<TestVector>>): seq<TestVector>
    requires forall n :: n in names ==> n in files
  {
    if names == [] then []
    else Vectors(names[..|names| - 1], files) + files[names[|names| - 1]]
  }

  /** Appending one statement's text extends the rendered body by that statement. */
  lemma RenderOneMore(body: seq<Stmt>, s: Stmt, quote: string -> string)
    ensures RenderBody(body, quote) + RenderStmt(s, quote) == RenderBody(body + [s], quote)
  {
    ConcatAppend(body, [s], StmtText(quote));
    assert [s][..0] == [];
  }

  /** Some vector of tests panics with p, in some iteration order. */
  ghost predicate Panics(tests: seq<TestVector>, p: Panic) {
    exists i, order :: 0 <= i < |tests| && OrderFits(tests[i], order) && Emit(tests[i], order) == Failure(p)
  }

  /** Emitting two runs of tests one after the other emits their concatenation. */
  lemma EmitsAllAppend(t1: seq<TestVector>, o1: seq<seq<string>>, f1: seq<TestFunc>,
                       t2: seq<TestVector>, o2: seq<seq<string>>, f2: seq<TestFunc>)
    requires EmitsAll(t1, o1, f1) && EmitsAll(t2, o2, f2)
    ensures EmitsAll(t1 + t2, o1 + o2, f1 + f2)
  {
    forall i | 0 <= i < |f1 + f2|
      ensures OrderFits((t1 + t2)[i], (o1 + o2)[i]) && Emit((t1 + t2)[i], (o1 + o2)[i]) == Success((f1 + f2)[i])
    {
      if i >= |f1| {
        var j := i - |f1|;
        assert (t1 + t2)[i] == t2[j] && (o1 + o2)[i] == o2[j] && (f1 + f2)[i] == f2[j];
      }
    }
  }

  /** One more emitted test extends the emitted prefix. */
  lemma EmitsFirstSnoc(tests: seq<TestVector>, orders: seq<seq<string>>, fs: seq<TestFunc>, order: seq<string>, f: TestFunc)
    requires EmitsFirst(tests, orders, fs) && |fs| < |tests|
    requires OrderFits(tests[|fs|], order) && Emit(tests[|fs|], order) == Success(f)
    ensures EmitsFirst(tests, orders + [order], fs + [f])
  {
    forall i | 0 <= i < |fs| + 1
      ensures OrderFits(tests[i], (orders + [order])[i]) && Emit(tests[i], (orders + [order])[i]) == Success((fs + [f])[i])
    {
      if i < |fs| {
        assert (orders + [order])[i] == orders[i] && (fs + [f])[i] == fs[i];
      }
    }
  }

  /** One more file's vectors follow the earlier files' vectors. */
  lemma VectorsSnoc(names: seq<string>, n: string, files: map<string, seq<TestVector>>)
    requires forall m :: m in names ==> m in files
    requires n in files
    ensures Vectors(names + [n], files) == Vectors(names, files) + files[n]
  {
    assert (names + [n])[..|names|] == names;
  }

  lemma RenderTestsAppend(fs: seq<TestFunc>, gs: seq<TestFunc>, quote: string -> string)
    ensures RenderTests(fs + gs, quote) == RenderTests(fs, quote) + RenderTests(gs, quote)
  {
    ConcatAppend(fs, gs, TestText(quote));
  }

  /** Appending one test's text extends the rendered tests by that test. */
  lemma RenderTestsOneMore(fs: seq<TestFunc>, f: TestFunc, quote: string -> string)
    ensures RenderTests(fs, quote) + RenderTest(f, quote) == RenderTests(fs + [f], quote)
  {
    ConcatAppend(fs, [f], TestText(quote));
    assert [f][..0] == [];
  }

  /** The directory generate lists. */
  const TestsDir: string := "../specifications/source/connection-string/tests/"

  class Generator {
    /** The accumulated output. */
    var buf: string

    constructor ()
      ensures buf == ""
    {
      buf := "";
    }

    method Printf(s: string)
      modifies this
      ensures buf == old(buf) + s
    {
      buf := buf + s;
    }

    method Printlnf(s: string)
      modifies this
      ensures buf == old(buf) + Line(s)
    {
      buf := buf + Line(s);
    }

    method PrintIfNotEqual(name: string, expected: string)
      modifies this
      ensures buf == old(buf) + IfNotEqual(name, expected)
    {
      ghost var o := buf;
      var a := "if " + name + " != " + expected + " {";
      var b := "t.Fatalf(\"expected " + EscapeQuotes(name) + " to be " + EscapeQuotes(expected)
               + ", but got \\\"%s\\\"\", " + name + ")";
      Printlnf(a);
      Printlnf(b);
      AppendAssoc(o, Line(a), Line(b));
      Printlnf("}");
      AppendAssoc(o, Line(a) + Line(b), Line("}"));
    }

    method PrintStringIfNotEqual(name: string, expected: string)
      modifies this
      ensures buf == old(buf) + StringIfNotEqual(name, expected)
    {
      PrintIfNotEqual(name, "\"" + expected + "\"");
    }

    /**
     * format: the pretty-printed buffer, or, when the pretty-printer rejects it,
     * the buffer unchanged so that no output is lost.
     */
    method Format(pretty: string -> Option<string>) returns (src: string)
      ensures pretty(buf).Some? ==> src == pretty(buf).value
      ensures pretty(buf).None? ==> src == buf
    {
      var formatted := pretty(buf);
      if formatted.Some? {
        src := formatted.value;
      } else {
        src := buf;
      }
    }

    /** The Go lines of one statement, as the printing calls of generateFromFile write them. */
    method WriteStmt(s: Stmt, quote: string -> string)
      modifies this
      ensures buf == old(buf) + RenderStmt(s, quote)
    {
      match s
      case ExpectError(u) => WriteExpectError(u, quote);
      case ExpectOk(u) => WriteExpectOk(u, quote);
      case HostCount(n) => WriteHostCount(n);
      case StrEq(f, lit) => PrintStringIfNotEqual(FieldExpr(f), lit);
      case PasswordNotSet => WritePasswordNotSet();
      case DurationMs(f, ms) => PrintIfNotEqual(FieldExpr(f), "time.Duration(" + Decimal(ms) + ") * time.Millisecond");
    }

    /** An invalid vector's test: parsing must fail. */
    method WriteExpectError(u: string, quote: string -> string)
      modifies this
      ensures buf == old(buf) + RenderStmt(ExpectError(u), quote)
    {
      var a, b, c, d := Line("_, err := ParseURI(" + quote(u) + ")"), Line("if err == nil {"),
                        Line("t.Fatal(\"expected an error but didn't get one\")"), Line("}");
      Printlnf("_, err := ParseURI(" + quote(u) + ")");
      Printlnf("if err == nil {");
      AppendAssoc(old(buf), a, b);
      Printlnf("t.Fatal(\"expected an error but didn't get one\")");
      AppendAssoc(old(buf), a + b, c);
      Printlnf("}");
      AppendAssoc(old(buf), a + b + c, d);
    }

    /** A valid vector's test starts by parsing, failing the test on an error. */
    method WriteExpectOk(u: string, quote: string -> string)
      modifies this
      ensures buf == old(buf) + RenderStmt(ExpectOk(u), quote)
    {
      var a, b, c, d := Line("uri, err := ParseURI(" + quote(u) + ")"), Line("if err != nil {"),
                        Line("t.Fatalf(\"error parsing \\\"%s\\\": %s\", \"" + u + "\",  err)"), Line("}");
      Printlnf("uri, err := ParseURI(" + quote(u) + ")");
      Printlnf("if err != nil {");
      AppendAssoc(old(buf), a, b);
      Printlnf("t.Fatalf(\"error parsing \\\"%s\\\": %s\", \"" + u + "\",  err)");
      AppendAssoc(old(buf), a + b, c);
      Printlnf("}");
      AppendAssoc(old(buf), a + b + c, d);
    }

    /** The check of the number of parsed hosts. */
    method WriteHostCount(n: nat)
      modifies this
      ensures forall quote :: buf == old(buf) + RenderStmt(HostCount(n), quote)
    {
      var a, b, c := Line("if len(uri.Hosts) != " + Decimal(n) + " {"),
                     Line("t.Fatalf(\"expected " + Decimal(n) + " hosts, but had %d: %v\", len(uri.Hosts), uri.Hosts)"), Line("}");
      Printlnf("if len(uri.Hosts) != " + Decimal(n) + " {");
      Printlnf("t.Fatalf(\"expected " + Decimal(n) + " hosts, but had %d: %v\", len(uri.Hosts), uri.Hosts)");
      AppendAssoc(old(buf), a, b);
      Printlnf("}");
      AppendAssoc(old(buf), a + b, c);
    }

    /** The check that no password was parsed, for a vector without auth. */
    method WritePasswordNotSet()
      modifies this
      ensures forall quote :: buf == old(buf) + RenderStmt(PasswordNotSet, quote)
    {
      var a, b, c := Line("if uri.PasswordSet {"), Line("t.Fatalf(\"expected password to not be set\")"), Line("}");
      Printlnf("if uri.PasswordSet {");
      Printlnf("t.Fatalf(\"expected password to not be set\")");
      AppendAssoc(old(buf), a, b);
      Printlnf("}");
      AppendAssoc(old(buf), a + b, c);
    }

    /** Writes one more statement of a body whose earlier statements done follow top. */
    method Put(s: Stmt, quote: string -> string, ghost top: string, ghost done: seq<Stmt>) returns (ghost done': seq<Stmt>)
      requires buf == top + RenderBody(done, quote)
      modifies this
      ensures done' == done + [s]
      ensures buf == top + RenderBody(done', quote)
      ensures old(buf) <= buf
    {
      WriteStmt(s, quote);
      AppendAssoc(top, RenderBody(done, quote), RenderStmt(s, quote));
      RenderOneMore(done, s, quote);
      done' := done + [s];
    }

    /**
     * The authmechanismproperties entries, in the order the iteration happens to
     * visit them; that order is returned and lists every key exactly once.
     */
    method WriteProperties(m: map<string, string>, quote: string -> string, ghost top: string, ghost done: seq<Stmt>)
      returns (ghost order: seq<string>)
      requires buf == top + RenderBody(done, quote)
      modifies this
      ensures IsEnumeration(order, m.Keys)
      ensures buf == top + RenderBody(done + PropertyStmts(m, order), quote)
      ensures old(buf) <= buf
    {
      var remaining := m.Keys;
      order := [];
      ghost var cur := done;
      while remaining != {}
        invariant forall i, j :: 0 <= i < j < |order| ==> order[i] != order[j]
        invariant forall k :: k in order ==> k in m && k !in remaining
        invariant forall k :: k in m ==> k in order || k in remaining
        invariant remaining <= m.Keys
        invariant cur == done + PropertyStmts(m, order)
        invariant buf == top + RenderBody(cur, quote)
        invariant old(buf) <= buf
        decreases remaining
      {
        ghost var before := buf;
        var key :| key in remaining;
        var s := StrEq(AuthMechanismProperty(key), ReplaceNul(m[key]));
        AppendAssoc(done, PropertyStmts(m, order), [s]);
        PropertyStmtsSnoc(m, order, key);
        cur := Put(s, quote, top, cur);
        PrefixTrans(old(buf), before, buf);
        order := order + [key];
        remaining := remaining - {key};
      }
    }

    /**
     * authmechanism or replicaset: the escaped string value, or the empty string when
     * the key is absent; a value of another type panics.
     */
    method WriteStringOption(options: map<string, OptionValue>, key: string, field: Field,
                             quote: string -> string, ghost top: string, ghost done: seq<Stmt>)
      returns (panic: Option<Panic>, ghost body: seq<Stmt>)
      requires buf == top + RenderBody(done, quote)
      modifies this
      ensures panic.None? ==>
                StringOption(options, key, field).Success?
                && body == done + [StringOption(options, key, field).value]
                && buf == top + RenderBody(body, quote)
      ensures panic.Some? ==> StringOption(options, key, field) == Failure(panic.value)
      ensures old(buf) <= buf
    {
      var s: Stmt;
      if key in options {
        if !options[key].Str? {
          return Some(WrongType(key)), done;
        }
        s := StrEq(field, ReplaceNul(options[key].s));
      } else {
        s := StrEq(field, "");
      }
      body := Put(s, quote, top, done);
      panic := None;
    }

    /** wtimeoutms: a duration comparison when the key is present; a non-integer value panics. */
    method WriteTimeout(options: map<string, OptionValue>, quote: string -> string, ghost top: string, ghost done: seq<Stmt>)
      returns (panic: Option<Panic>, ghost body: seq<Stmt>)
      requires buf == top + RenderBody(done, quote)
      modifies this
      ensures panic.None? ==>
                TimeoutOption(options).Success?
                && body == done + TimeoutOption(options).value
                && buf == top + RenderBody(body, quote)
      ensures panic.Some? ==> TimeoutOption(options) == Failure(panic.value)
      ensures old(buf) <= buf
    {
      body := done;
      if WTimeoutKey in options {
        if !options[WTimeoutKey].Int? {
          return Some(WrongType(WTimeoutKey)), done;
        }
        body := Put(DurationMs(WTimeout, options[WTimeoutKey].i), quote, top, done);
      } else {
        assert done + [] == done;
      }
      panic := None;
    }

    /**
     * The option block: the four known options in the order generateFromFile checks
     * them, stopping with a panic at the first whose value has the wrong type.
     */
    method WriteOptions(options: map<string, OptionValue>, quote: string -> string, ghost top: string, ghost done: seq<Stmt>)
      returns (panic: Option<Panic>, ghost order: seq<string>)
      requires buf == top + RenderBody(done, quote)
      requires |options| > 0
      modifies this
      ensures PropertiesKey in options && options[PropertiesKey].Map? ==>
                IsEnumeration(order, options[PropertiesKey].entries.Keys)
      ensures OrderWithin(options, order)
      ensures panic.None? ==>
                OptionStmts(options, order).Success?
                && buf == top + RenderBody(done + OptionStmts(options, order).value, quote)
      ensures panic.Some? ==> OptionStmts(options, order) == Failure(panic.value)
      ensures old(buf) <= buf
    {
      // the order used when a panic comes before the properties are visited
      order := if PropertiesKey in options && options[PropertiesKey].Map?
               then EnumerationOf(options[PropertiesKey].entries.Keys) else [];
      ghost var start := buf;
      ghost var before := buf;
      ghost var cur: seq<Stmt>;
      panic, cur := WriteStringOption(options, AuthMechanismKey, AuthMechanism, quote, top, done);
      if panic.Some? {
        return;
      }
      ghost var mech := StringOption(options, AuthMechanismKey, AuthMechanism).value;

      ghost var props: seq<Stmt> := [];
      if PropertiesKey in options {
        if !options[PropertiesKey].Map? {
          return Some(WrongType(PropertiesKey)), order;
        }
        var m := options[PropertiesKey].entries;
        before := buf;
        order := WriteProperties(m, quote, top, cur);
        PrefixTrans(start, before, buf);
        props := PropertyStmts(m, order);
        AppendAssoc(done, [mech], props);
        cur := cur + props;
      } else {
        assert [mech] + props == [mech];
      }
      assert cur == done + ([mech] + props);
      assert PropertiesOption(options, order) == Success(props);

      before := buf;
      panic, cur := WriteStringOption(options, ReplicaSetKey, ReplicaSet, quote, top, cur);
      PrefixTrans(start, before, buf);
      if panic.Some? {
        return;
      }
      ghost var replicaSet := StringOption(options, ReplicaSetKey, ReplicaSet).value;
      AppendAssoc(done, [mech] + props, [replicaSet]);

      before := buf;
      panic, cur := WriteTimeout(options, quote, top, cur);
      PrefixTrans(start, before, buf);
      if panic.Some? {
        return;
      }
      ghost var timeout := TimeoutOption(options).value;
      AppendAssoc(done, [mech] + props + [replicaSet], timeout);
      assert cur == done + ([mech] + props + [replicaSet] + timeout);
      assert OptionStmts(options, order) == Success([mech] + props + [replicaSet] + timeout);
    }

    /** One comparison per host, in the order of the vector's host list. */
    method WriteHosts(hosts: seq<Host>, quote: string -> string, ghost top: string, ghost done: seq<Stmt>)
      returns (ghost body: seq<Stmt>)
      requires buf == top + RenderBody(done, quote)
      modifies this
      ensures body == done + HostStmts(hosts)
      ensures buf == top + RenderBody(body, quote)
    {
      body := done;
      assert done + HostStmts(hosts[..0]) == done;
      for i := 0 to |hosts|
        invariant body == done + HostStmts(hosts[..i])
        invariant buf == top + RenderBody(body, quote)
      {
        var s := StrEq(HostAt(i), HostString(hosts[i]));
        HostStmtsSnoc(hosts, i);
        AppendAssoc(done, HostStmts(hosts[..i]), [s]);
        body := Put(s, quote, top, body);
      }
      assert hosts[..|hosts|] == hosts;
    }

    /**
     * The credential checks: the username and password of the auth record, or an
     * empty username and an unset password when the vector has none.
     */
    method WriteCredentials(auth: Option<Auth>, quote: string -> string, ghost top: string, ghost done: seq<Stmt>)
      returns (ghost body: seq<Stmt>)
      requires buf == top + RenderBody(done, quote)
      modifies this
      ensures body == done + CredentialStmts(auth)
      ensures buf == top + RenderBody(body, quote)
    {
      if auth.None? {
        body := Put(StrEq(Username, ""), quote, top, done);
        body := Put(PasswordNotSet, quote, top, body);
      } else {
        body := Put(StrEq(Username, ReplaceNul(auth.value.username)), quote, top, done);
        body := Put(StrEq(Password, ReplaceNul(auth.value.password)), quote, top, body);
      }
    }

    /**
     * The checks of a valid vector before its options: the parse, the host count,
     * each host, the credentials and the database.
     */
    method WritePrefix(v: TestVector, quote: string -> string, ghost top: string)
      requires buf == top
      modifies this
      ensures buf == top + RenderBody(Prefix(v), quote)
    {
      assert top + RenderBody([], quote) == top;
      ghost var body := Put(ExpectOk(v.uri), quote, top, []);
      body := Put(HostCount(|v.hosts|), quote, top, body);
      assert body == [ExpectOk(v.uri), HostCount(|v.hosts|)];
      body := WriteHosts(v.hosts, quote, top, body);
      body := WriteCredentials(v.auth, quote, top, body);
      body := WriteDatabase(v.auth, quote, top, body);
    }

    /** The database comparison that closes the prefix. */
    method WriteDatabase(auth: Option<Auth>, quote: string -> string, ghost top: string, ghost done: seq<Stmt>)
      returns (ghost body: seq<Stmt>)
      requires buf == top + RenderBody(done, quote)
      modifies this
      ensures body == done + [StrEq(Database, ReplaceNul(DatabaseOf(auth)))]
      ensures buf == top + RenderBody(body, quote)
    {
      // generateFromFile reads the database through the auth record even when it is
      // nil; here a missing record reads as a zero-valued one.
      var db := if auth.None? then "" else auth.value.db;
      body := Put(StrEq(Database, ReplaceNul(db)), quote, top, done);
    }

    /** The blank lines and the signature of the test function named after the description. */
    method WriteHeader(description: string)
      modifies this
      ensures buf == old(buf) + Header(Sanitize(description))
    {
      var name := ReplaceCharacters(description, Disallowed, Replacement);
      Printf("\n\n");
      Printlnf("func TestParseURI_" + name + "(t *testing.T) {");
      AppendAssoc(old(buf), "\n\n", Line("func TestParseURI_" + name + "(t *testing.T) {"));
    }

    /**
     * The body of generateFromFile's loop for one vector: writes the test function
     * and reports a panic where the Go code would abort. On success the buffer has
     * grown by exactly the rendering of the emitted test; in every case it only grows.
     */
    method GenerateTest(v: TestVector, quote: string -> string) returns (panic: Option<Panic>, ghost order: seq<string>)
      modifies this
      ensures OrderFits(v, order)
      ensures panic.None? ==> Emit(v, order).Success? && buf == old(buf) + RenderTest(Emit(v, order).value, quote)
      ensures panic.Some? ==> Emit(v, order) == Failure(panic.value)
      ensures old(buf) <= buf
    {
      order := SomeOrder(v);
      WriteHeader(v.description);
      ghost var top := buf;
      ghost var header := Header(Sanitize(v.description));

      ghost var body: seq<Stmt>;
      if !v.valid {
        assert top + RenderBody([], quote) == top;
        body := Put(ExpectError(v.uri), quote, top, []);
      } else {
        WritePrefix(v, quote, top);
        body := Prefix(v);
        if |v.options| > 0 {
          ghost var before := buf;
          panic, order := WriteOptions(v.options, quote, top, body);
          if panic.Some? {
            PrefixTrans(old(buf), before, buf);
            return;
          }
          body := body + OptionStmts(v.options, order).value;
        } else {
          assert body + [] == body;
        }
      }
      assert Emit(v, order) == Success(TestFunc(Sanitize(v.description), body));
      ghost var text := RenderBody(body, quote);
      Printlnf("}");
      AppendAssoc(old(buf), header, text);
      AppendAssoc(old(buf), header + text, Line("}"));
      panic := None;
    }

    /**
     * generateFromFile's loop: one test function per vector, in file order. It
     * either writes them all, or stops at the first vector whose emission panics.
     */
    method GenerateTests(tests: seq<TestVector>, quote: string -> string)
      returns (panic: Option<Panic>, ghost orders: seq<seq<string>>, ghost fs: seq<TestFunc>)
      modifies this
      ensures EmitsFirst(tests, orders, fs)
      ensures panic.None? ==> EmitsAll(tests, orders, fs) && buf == old(buf) + RenderTests(fs, quote)
      ensures panic.Some? ==>
                |fs| < |tests| &&
                exists order :: OrderFits(tests[|fs|], order) && Emit(tests[|fs|], order) == Failure(panic.value)
      ensures panic.Some? ==> Panics(tests, panic.value)
      ensures old(buf) <= buf
    {
      orders, fs := [], [];
      for i := 0 to |tests|
        invariant |fs| == i
        invariant EmitsFirst(tests, orders, fs)
        invariant buf == old(buf) + RenderTests(fs, quote)
      {
        ghost var before := buf;
        var p: Option<Panic>;
        ghost var order: seq<string>;
        p, order := GenerateTest(tests[i], quote);
        if p.Some? {
          PrefixTrans(old(buf), before, buf);
          assert OrderFits(tests[|fs|], order) && Emit(tests[|fs|], order) == Failure(p.value);
          return p, orders, fs;
        }
        ghost var f := Emit(tests[i], order).value;
        EmitsFirstSnoc(tests, orders, fs, order, f);
        RenderTestsOneMore(fs, f, quote);
        AppendAssoc(old(buf), RenderTests(fs, quote), RenderTest(f, quote));
        orders, fs := orders + [order], fs + [f];
      }
      panic := None;
    }

    /**
     * generateFromFile: the decoded vectors of the named file, or the end of the run
     * when the file cannot be read or decoded; then their tests.
     */
    method GenerateFromFile(name: string, files: map<string, seq<TestVector>>, quote: string -> string)
      returns (fatal: Option<Fatal>, ghost orders: seq<seq<string>>, ghost fs: seq<TestFunc>)
      modifies this
      ensures name !in files ==> fatal == Some(Unreadable(name))
      ensures name in files && fatal.None? ==> EmitsAll(files[name], orders, fs) && buf == old(buf) + RenderTests(fs, quote)
      ensures name in files && fatal.Some? ==> fatal.value.Aborted? && Panics(files[name], fatal.value.panic)
      ensures name in files && fatal.Some? ==>
                && EmitsFirst(files[name], orders, fs)
                && |fs| < |files[name]|
                && exists order :: OrderFits(files[name][|fs|], order) && Emit(files[name][|fs|], order) == Failure(fatal.value.panic)
    {
      orders, fs := [], [];
      if name !in files {
        return Some(Unreadable(name)), orders, fs;
      }
      var p: Option<Panic>;
      p, orders, fs := GenerateTests(files[name], quote);
      fatal := if p.Some? then Some(Aborted(p.value)) else None;
    }

    /** The package clause and imports written before any test. */
    method WritePreamble()
      modifies this
      ensures buf == old(buf) + Preamble
    {
      Printlnf("package core_test");
      Printlnf("import \"testing\"");
      AppendAssoc(old(buf), Line("package core_test"), Line("import \"testing\""));
      Printlnf("import \"time\"");
      AppendAssoc(old(buf), Line("package core_test") + Line("import \"testing\""), Line("import \"time\""));
      Printlnf("import . \"github.com/10gen/mongo-go-driver/core\"");
      AppendAssoc(old(buf), Line("package core_test") + Line("import \"testing\"") + Line("import \"time\""),
                  Line("import . \"github.com/10gen/mongo-go-driver/core\""));
    }

    /** generate's loop over the listing: the tests of every .yml file, in listing order. */
    method GenerateAll(entries: seq<DirEntry>, files: map<string, seq<TestVector>>, quote: string -> string)
      returns (fatal: Option<Fatal>, ghost orders: seq<seq<string>>, ghost fs: seq<TestFunc>)
      modifies this
      ensures fatal.None? ==>
                && (forall n :: n in TestFiles(entries) ==> n in files)
                && EmitsAll(Vectors(TestFiles(entries), files), orders, fs)
                && buf == old(buf) + RenderTests(fs, quote)
      ensures fatal.Some? && fatal.value.Unreadable? ==>
                fatal.value.file in TestFiles(entries) && fatal.value.file !in files
      ensures fatal.Some? && fatal.value.Aborted? ==>
                exists n :: n in TestFiles(entries) && n in files && Panics(files[n], fatal.value.panic)
    {
      orders, fs := [], [];
      ghost var names: seq<string> := [];
      for i := 0 to |entries|
        invariant names == TestFiles(entries[..i])
        invariant forall n :: n in names ==> n in files
        invariant EmitsAll(Vectors(names, files), orders, fs)
        invariant buf == old(buf) + RenderTests(fs, quote)
      {
        var entry := entries[i];
        TestFilesStep(entries, i);
        if entry.isDir || Ext(entry.name) != ".yml" {
          continue;
        }
        ghost var os: seq<seq<string>>, gs: seq<TestFunc>;
        fatal, os, gs := GenerateFromFile(entry.name, files, quote);
        if fatal.Some? {
          assert entry in entries && IsTestFile(entry);
          return;
        }
        VectorsSnoc(names, entry.name, files);
        EmitsAllAppend(Vectors(names, files), orders, fs, files[entry.name], os, gs);
        RenderTestsAppend(fs, gs, quote);
        AppendAssoc(old(buf), RenderTests(fs, quote), RenderTests(gs, quote));
        names := names + [entry.name];
        orders, fs := orders + os, fs + gs;
      }
      assert entries[..|entries|] == entries;
      fatal := None;
    }

    /**
     * generate: the package clause and imports, then the tests of every .yml file
     * of the listing in listing order, then the formatted source. A listing or a
     * file that cannot be read, and a panic while writing a test, end the run.
     */
    method Generate(listing: Option<seq<DirEntry>>, files: map<string, seq<TestVector>>,
                    quote: string -> string, pretty: string -> Option<string>)
      returns (res: Result<string, Fatal>, ghost orders: seq<seq<string>>, ghost fs: seq<TestFunc>)
      modifies this
      ensures listing.None? ==> res == Failure(Unreadable(TestsDir))
      ensures res.Success? ==>
                && listing.Some?
                && (forall n :: n in TestFiles(listing.value) ==> n in files)
                && EmitsAll(Vectors(TestFiles(listing.value), files), orders, fs)
                && buf == old(buf) + Preamble + RenderTests(fs, quote)
                && (pretty(buf).Some? ==> res.value == pretty(buf).value)
                && (pretty(buf).None? ==> res.value == buf)
      ensures res.Failure? && res.error.Unreadable? && listing.Some? ==>
                res.error.file in TestFiles(listing.value) && res.error.file !in files
      ensures res.Failure? && res.error.Aborted? ==>
                listing.Some? &&
                exists n :: n in TestFiles(listing.value) && n in files && Panics(files[n], res.error.panic)
    {
      WritePreamble();
      orders, fs := [], [];
      if listing.None? {
        return Failure(Unreadable(TestsDir)), orders, fs;
      }
      var fatal: Option<Fatal>;
      fatal, orders, fs := GenerateAll(listing.value, files, quote);
      if fatal.Some? {
        return Failure(fatal.value), orders, fs;
      }
      var src := Format(pretty);
      res := Success(src);
    }
  }
}
