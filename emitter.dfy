/**
 * The assertion emitter: the per-vector body of generateFromFile, stated as a
 * function from one decoded test vector to the ordered list of assertions the
 * generated test function performs.
 */
module Emitter {
  import opened Wrappers
  import opened Strings
  import opened Sanitizer
  import opened Literals

  /** The credentials block of a vector. */
  datatype Auth = Auth(username: string, password: string, db: string)

  /**
   * An option value as decoded from YAML, tagged by its dynamic type. A mapping holds
   * its keys and values as fmt's %v renders them.
   */
  datatype OptionValue = Str(s: string) | Int(i: int) | Map(entries: map<string, string>)

  /** One connection-string test vector. */
  datatype TestVector = TestVector(
    description: string,
    uri: string,
    valid: bool,
    hosts: seq<Host>,
    auth: Option<Auth>,
    options: map<string, OptionValue>)

  /** Why generation aborts: a nil auth record dereferenced, or a failed type assertion on an option value. */
  datatype Panic = NilAuth | WrongType(key: string)

  /** The field of the parsed URI an assertion observes. */
  datatype Field =
    | HostAt(index: nat)
    | Username
    | Password
    | Database
    | AuthMechanism
    | AuthMechanismProperty(key: string)
    | ReplicaSet
    | WTimeout

  /** One assertion of a generated test. */
  datatype Stmt =
    | ExpectError(uri: string)          // parsing the URI must fail
    | ExpectOk(uri: string)             // parsing the URI must succeed
    | HostCount(n: nat)                 // the parsed URI has n hosts
    | StrEq(field: Field, lit: string)  // the field equals the string literal with body lit
    | PasswordNotSet                    // the password-set flag is false
    | DurationMs(field: Field, ms: int) // the field equals ms milliseconds

  /** A generated test function: the sanitized name and its assertions in order. */
  datatype TestFunc = TestFunc(name: string, body: seq<Stmt>)

  const AuthMechanismKey: string := "authmechanism"
  const PropertiesKey: string := "authmechanismproperties"
  const ReplicaSetKey: string := "replicaset"
  const WTimeoutKey: string := "wtimeoutms"

  /** order lists every key of keys exactly once: one possible iteration order of a Go map. */
  predicate IsEnumeration(order: seq<string>, keys: set<string>) {
    && (forall i, j :: 0 <= i < j < |order| ==> order[i] != order[j])
    && (forall k :: k in order ==> k in keys)
    && (forall k :: k in keys ==> k in order)
  }

  /** order is the iteration order of the vector's authmechanismproperties mapping, when it has one. */
  predicate OrderFits(v: TestVector, order: seq<string>) {
    PropertiesKey in v.options && v.options[PropertiesKey].Map? ==>
      IsEnumeration(order, v.options[PropertiesKey].entries.Keys)
  }

  function HostStmts(hosts: seq<Host>): seq<Stmt> {
    seq(|hosts|, i requires 0 <= i < |hosts| => StrEq(HostAt(i), HostString(hosts[i])))
  }

  /** One more host adds that host's comparison at the end. */
  lemma HostStmtsSnoc(hosts: seq<Host>, i: nat)
    requires i < |hosts|
    ensures HostStmts(hosts[..i + 1]) == HostStmts(hosts[..i]) + [StrEq(HostAt(i), HostString(hosts[i]))]
  {
  }

  function CredentialStmts(auth: Option<Auth>): seq<Stmt> {
    match auth
    case None => [StrEq(Username, ""), PasswordNotSet]
    case Some(a) => [StrEq(Username, ReplaceNul(a.username)), StrEq(Password, ReplaceNul(a.password))]
  }

  /** The expected database: that of the auth record, or that of a zero-valued one. */
  function DatabaseOf(auth: Option<Auth>): string {
    match auth
    case None => ""
    case Some(a) => a.db
  }

  /** authmechanism and replicaset: the escaped string value, or the empty string when the key is absent. */
  function StringOption(options: map<string, OptionValue>, key: string, field: Field): Result<Stmt, Panic> {
    if key !in options then Success(StrEq(field, ""))
    else match options[key]
      case Str(s) => Success(StrEq(field, ReplaceNul(s)))
      case _ => Failure(WrongType(key))
  }

  function PropertyStmts(entries: map<string, string>, order: seq<string>): seq<Stmt>
    requires forall k :: k in order ==> k in entries
  {
    seq(|order|, i requires 0 <= i < |order| =>
      StrEq(AuthMechanismProperty(order[i]), ReplaceNul(entries[order[i]])))
  }

  /** Visiting one more key adds that key's comparison at the end. */
  lemma PropertyStmtsSnoc(entries: map<string, string>, order: seq<string>, key: string)
    requires forall k :: k in order ==> k in entries
    requires key in entries
    ensures PropertyStmts(entries, order + [key])
            == PropertyStmts(entries, order) + [StrEq(AuthMechanismProperty(key), ReplaceNul(entries[key]))]
  {
  }

  predicate OrderWithin(options: map<string, OptionValue>, order: seq<string>) {
    PropertiesKey in options && options[PropertiesKey].Map? ==>
      forall k :: k in order ==> k in options[PropertiesKey].entries
  }

  function PropertiesOption(options: map<string, OptionValue>, order: seq<string>): Result<seq<Stmt>, Panic>
    requires OrderWithin(options, order)
  {
    if PropertiesKey !in options then Success([])
    else match options[PropertiesKey]
      case Map(m) => Success(PropertyStmts(m, order))
      case _ => Failure(WrongType(PropertiesKey))
  }

  function TimeoutOption(options: map<string, OptionValue>): Result<seq<Stmt>, Panic> {
    if WTimeoutKey !in options then Success([])
    else match options[WTimeoutKey]
      case Int(ms) => Success([DurationMs(WTimeout, ms)])
      case _ => Failure(WrongType(WTimeoutKey))
  }

  /** The option block: nothing for an empty mapping, else the four known options in source order. */
  function OptionStmts(options: map<string, OptionValue>, order: seq<string>): Result<seq<Stmt>, Panic>
    requires OrderWithin(options, order)
  {
    if |options| == 0 then Success([])
    else
      var mech :- StringOption(options, AuthMechanismKey, AuthMechanism);
      var props :- PropertiesOption(options, order);
      var replicaSet :- StringOption(options, ReplicaSetKey, ReplicaSet);
      var timeout :- TimeoutOption(options);
      Success([mech] + props + [replicaSet] + timeout)
  }

  /**
   * The test function generated for one vector. A vector with no auth record is
   * treated as carrying a zero-valued one, so its database is expected to be empty.
   */
  function Emit(v: TestVector, order: seq<string>): Result<TestFunc, Panic>
    requires OrderFits(v, order)
  {
    var name := Sanitize(v.description);
    if !v.valid then Success(TestFunc(name, [ExpectError(v.uri)]))
    else
      var opts :- OptionStmts(v.options, order);
      Success(TestFunc(name,
        [ExpectOk(v.uri), HostCount(|v.hosts|)]
        + HostStmts(v.hosts)
        + CredentialStmts(v.auth)
        + [StrEq(Database, ReplaceNul(DatabaseOf(v.auth)))]
        + opts))
  }

  /** generateFromFile exactly as written: a valid vector without auth dereferences the nil record and aborts. */
  function EmitAsWritten(v: TestVector, order: seq<string>): Result<TestFunc, Panic>
    requires OrderFits(v, order)
  {
    if v.valid && v.auth.None? then Failure(NilAuth) else Emit(v, order)
  }

  // ---------------------------------------------------------------------------
  // Counting the assertions on a field

  predicate Compares(s: Stmt, f: Field) {
    (s.StrEq? || s.DurationMs?) && s.field == f
  }

  /** How many statements of body compare field f. */
  function CountAsserting(body: seq<Stmt>, f: Field): nat {
    if body == [] then 0
    else (if Compares(body[0], f) then 1 else 0) + CountAsserting(body[1..], f)
  }

  lemma {:induction false} CountConcat(a: seq<Stmt>, b: seq<Stmt>, f: Field)
    ensures CountAsserting(a + b, f) == CountAsserting(a, f) + CountAsserting(b, f)
  {
    if a != [] {
      assert (a + b)[1..] == a[1..] + b;
      CountConcat(a[1..], b, f);
    } else {
      assert a + b == b;
    }
  }

  lemma {:induction false} CountNone(body: seq<Stmt>, f: Field)
    requires forall j :: 0 <= j < |body| ==> !Compares(body[j], f)
    ensures CountAsserting(body, f) == 0
  {
    if body != [] {
      CountNone(body[1..], f);
    }
  }

  lemma {:induction false} CountUnique(body: seq<Stmt>, f: Field, j: nat)
    requires j < |body| && Compares(body[j], f)
    requires forall i :: 0 <= i < |body| && i != j ==> !Compares(body[i], f)
    ensures CountAsserting(body, f) == 1
  {
    if j == 0 {
      CountNone(body[1..], f);
    } else {
      CountUnique(body[1..], f, j - 1);
    }
  }

  // ---------------------------------------------------------------------------
  // What the emitted test asserts

  /** A vector expected to be rejected yields a test that only checks that parsing fails. */
  lemma EmitInvalid(v: TestVector, order: seq<string>)
    requires OrderFits(v, order) && !v.valid
    ensures Emit(v, order) == Success(TestFunc(Sanitize(v.description), [ExpectError(v.uri)]))
  {
  }

  /** The type assertions of the four known options are checked exactly when options are consulted. */
  predicate WellTyped(options: map<string, OptionValue>) {
    && (AuthMechanismKey in options ==> options[AuthMechanismKey].Str?)
    && (PropertiesKey in options ==> options[PropertiesKey].Map?)
    && (ReplicaSetKey in options ==> options[ReplicaSetKey].Str?)
    && (WTimeoutKey in options ==> options[WTimeoutKey].Int?)
  }

  /** The value under a known option key lacks the dynamic type the generator asserts for it. */
  predicate Mistyped(options: map<string, OptionValue>, key: string) {
    && key in options
    && (|| ((key == AuthMechanismKey || key == ReplicaSetKey) && !options[key].Str?)
        || (key == PropertiesKey && !options[key].Map?)
        || (key == WTimeoutKey && !options[key].Int?))
  }

  /**
   * Generation aborts exactly for a valid vector with a non-empty option mapping
   * in which one of the four known options has the wrong dynamic type; the panic
   * names the first such option in the order the generator consults them:
   * authmechanism, authmechanismproperties, replicaset, wtimeoutms.
   */
  lemma EmitFailsOnlyOnMistypedOption(v: TestVector, order: seq<string>)
    requires OrderFits(v, order)
    ensures Emit(v, order).Failure? <==> v.valid && |v.options| > 0 && !WellTyped(v.options)
    ensures Emit(v, order).Failure? ==>
              var e := Emit(v, order).error;
              var o := v.options;
              && e.WrongType?
              && e.key in {AuthMechanismKey, PropertiesKey, ReplicaSetKey, WTimeoutKey}
              && Mistyped(o, e.key)
              && (Mistyped(o, AuthMechanismKey) ==> e.key == AuthMechanismKey)
              && (Mistyped(o, PropertiesKey) ==> e.key in {AuthMechanismKey, PropertiesKey})
              && (Mistyped(o, ReplicaSetKey) ==> e.key in {AuthMechanismKey, PropertiesKey, ReplicaSetKey})
  {
  }

  /** The statements of a valid vector's test before its option block. */
  function Prefix(v: TestVector): seq<Stmt> {
    [ExpectOk(v.uri), HostCount(|v.hosts|)]
    + HostStmts(v.hosts)
    + CredentialStmts(v.auth)
    + [StrEq(Database, ReplaceNul(DatabaseOf(v.auth)))]
  }

  /** A valid vector's statements are the prefix followed by its option block. */
  lemma EmitValidShape(v: TestVector, order: seq<string>)
    requires OrderFits(v, order) && v.valid && Emit(v, order).Success?
    ensures OptionStmts(v.options, order).Success?
    ensures Emit(v, order).value.body == Prefix(v) + OptionStmts(v.options, order).value
  {
  }

  /** A comparison of one of the option fields. */
  predicate IsOptionCheck(s: Stmt) {
    (s.StrEq? || s.DurationMs?) && IsOptionField(s.field)
  }

  /**
   * A valid vector's test has five checks besides its host comparisons (the parse,
   * the host count, two credential checks and the database) and none of them, nor
   * any host comparison, reads an option; every check after them compares an
   * option field, and there are such checks exactly when the option mapping is
   * non-empty.
   */
  lemma EmitValidLayout(v: TestVector, order: seq<string>)
    requires OrderFits(v, order) && v.valid && Emit(v, order).Success?
    ensures var body := Emit(v, order).value.body;
            var p := 5 + |v.hosts|;
            && |body| >= p
            && (|body| == p <==> |v.options| == 0)
            && (forall j :: 0 <= j < p ==> !IsOptionCheck(body[j]))
            && (forall j :: p <= j < |body| ==> IsOptionCheck(body[j]))
  {
    EmitValidShape(v, order);
    PrefixReadsNoOption(v);
    OptionBlockFields(v.options, order);
    OptionBlockNonEmpty(v.options, order);
    ChecksThenOptions(Prefix(v), OptionStmts(v.options, order).value);
  }

  /** The prefix has five checks besides the host comparisons, and none of them reads an option. */
  lemma PrefixReadsNoOption(v: TestVector)
    ensures |Prefix(v)| == 5 + |v.hosts|
    ensures forall j :: 0 <= j < |Prefix(v)| ==> !IsOptionCheck(Prefix(v)[j])
  {
    PrefixSplit(v);
    PrefixBeforeCredentials(v);
    var before: seq<Stmt> := [ExpectOk(v.uri), HostCount(|v.hosts|)] + HostStmts(v.hosts);
    var rest := CredentialStmts(v.auth) + [StrEq(Database, ReplaceNul(DatabaseOf(v.auth)))];
    forall j | 0 <= j < |Prefix(v)|
      ensures !IsOptionCheck(Prefix(v)[j])
    {
      if j < |before| {
        assert Prefix(v)[j] == before[j];
      } else {
        assert Prefix(v)[j] == rest[j - |before|];
      }
    }
  }

  /** The option block is empty exactly when the option mapping is. */
  lemma OptionBlockNonEmpty(options: map<string, OptionValue>, order: seq<string>)
    requires OrderWithin(options, order) && OptionStmts(options, order).Success?
    ensures |OptionStmts(options, order).value| == 0 <==> |options| == 0
  {
    if |options| > 0 {
      OptionBlockShape(options, order);
    }
  }

  /** Checks that read no option followed by option checks: the boundary is the length of the first part. */
  lemma ChecksThenOptions(a: seq<Stmt>, b: seq<Stmt>)
    requires forall j :: 0 <= j < |a| ==> !IsOptionCheck(a[j])
    requires forall j :: 0 <= j < |b| ==> IsOptionCheck(b[j])
    ensures forall j :: 0 <= j < |a| ==> !IsOptionCheck((a + b)[j])
    ensures forall j :: |a| <= j < |a + b| ==> IsOptionCheck((a + b)[j])
  {
    forall j | |a| <= j < |a + b|
      ensures IsOptionCheck((a + b)[j])
    {
      assert (a + b)[j] == b[j - |a|];
    }
  }

  lemma PrefixHosts(v: TestVector)
    ensures |Prefix(v)| == 5 + |v.hosts|
    ensures Prefix(v)[0] == ExpectOk(v.uri) && Prefix(v)[1] == HostCount(|v.hosts|)
    ensures forall i :: 0 <= i < |v.hosts| ==> Prefix(v)[2 + i] == StrEq(HostAt(i), HostString(v.hosts[i]))
    ensures forall i: nat :: CountAsserting(Prefix(v), HostAt(i)) == if i < |v.hosts| then 1 else 0
  {
    var head: seq<Stmt> := [ExpectOk(v.uri), HostCount(|v.hosts|)];
    var hosts := HostStmts(v.hosts);
    var tail := CredentialStmts(v.auth) + [StrEq(Database, ReplaceNul(DatabaseOf(v.auth)))];
    PrefixSplit(v);
    forall i: nat ensures CountAsserting(Prefix(v), HostAt(i)) == if i < |v.hosts| then 1 else 0 {
      CountConcat(head + hosts, tail, HostAt(i));
      CountConcat(head, hosts, HostAt(i));
      CountNone(head, HostAt(i));
      CountNone(tail, HostAt(i));
      if i < |v.hosts| {
        CountUnique(hosts, HostAt(i), i);
      } else {
        CountNone(hosts, HostAt(i));
      }
    }
  }

  /**
   * A valid vector's test starts by parsing the URI successfully, checks the host
   * count, then compares every host, in order, with its canonical rendering; each
   * host index is compared exactly once.
   */
  lemma EmitHostsInOrder(v: TestVector, order: seq<string>)
    requires OrderFits(v, order) && v.valid && Emit(v, order).Success?
    ensures var body := Emit(v, order).value.body;
            && |body| >= 5 + |v.hosts|
            && body[0] == ExpectOk(v.uri)
            && body[1] == HostCount(|v.hosts|)
            && (forall i :: 0 <= i < |v.hosts| ==> body[2 + i] == StrEq(HostAt(i), HostString(v.hosts[i])))
            && (forall i: nat :: CountAsserting(body, HostAt(i)) == if i < |v.hosts| then 1 else 0)
  {
    EmitValidShape(v, order);
    PrefixHosts(v);
    var opts := OptionStmts(v.options, order).value;
    forall i: nat ensures CountAsserting(Prefix(v) + opts, HostAt(i)) == if i < |v.hosts| then 1 else 0 {
      CountConcat(Prefix(v), opts, HostAt(i));
      OptionsNeverCompare(v.options, order, HostAt(i));
    }
  }

  predicate IsOptionField(f: Field) {
    f.AuthMechanism? || f.AuthMechanismProperty? || f.ReplicaSet? || f.WTimeout?
  }

  /** The option block only holds comparisons of option fields. */
  lemma OptionBlockFields(options: map<string, OptionValue>, order: seq<string>)
    requires OrderWithin(options, order) && OptionStmts(options, order).Success?
    ensures forall j :: 0 <= j < |OptionStmts(options, order).value| ==>
              var s := OptionStmts(options, order).value[j];
              (s.StrEq? || s.DurationMs?) && IsOptionField(s.field)
  {
    if |options| > 0 {
      var props := PropertiesOption(options, order).value;
      assert forall j :: 0 <= j < |props| ==> props[j].StrEq? && props[j].field.AuthMechanismProperty?;
    }
  }

  lemma OptionsNeverCompare(options: map<string, OptionValue>, order: seq<string>, f: Field)
    requires OrderWithin(options, order) && OptionStmts(options, order).Success?
    requires !IsOptionField(f)
    ensures CountAsserting(OptionStmts(options, order).value, f) == 0
    ensures PasswordNotSet !in OptionStmts(options, order).value
  {
    OptionBlockFields(options, order);
    CountNone(OptionStmts(options, order).value, f);
  }

  lemma PrefixNeverComparesOptions(v: TestVector, f: Field)
    requires IsOptionField(f)
    ensures CountAsserting(Prefix(v), f) == 0
  {
    PrefixSplit(v);
    PrefixBeforeCredentials(v);
    var before: seq<Stmt> := [ExpectOk(v.uri), HostCount(|v.hosts|)] + HostStmts(v.hosts);
    var rest := CredentialStmts(v.auth) + [StrEq(Database, ReplaceNul(DatabaseOf(v.auth)))];
    CountConcat(before, rest, f);
    CountNone(before, f);
    CountNone(rest, f);
  }

  lemma PrefixCredentials(v: TestVector)
    ensures var p := Prefix(v);
            var c := 2 + |v.hosts|;
            && |p| == c + 3
            && (v.auth.None? ==> p[c] == StrEq(Username, "") && p[c + 1] == PasswordNotSet)
            && (v.auth.Some? ==>
                  && p[c] == StrEq(Username, ReplaceNul(v.auth.value.username))
                  && p[c + 1] == StrEq(Password, ReplaceNul(v.auth.value.password)))
            && p[c + 2] == StrEq(Database, ReplaceNul(DatabaseOf(v.auth)))
            && (PasswordNotSet in p <==> v.auth.None?)
            && CountAsserting(p, Username) == 1
            && CountAsserting(p, Password) == (if v.auth.Some? then 1 else 0)
            && CountAsserting(p, Database) == 1
  {
    PrefixSplit(v);
    PrefixBeforeCredentials(v);
    var before: seq<Stmt> := [ExpectOk(v.uri), HostCount(|v.hosts|)] + HostStmts(v.hosts);
    var rest := CredentialStmts(v.auth) + [StrEq(Database, ReplaceNul(DatabaseOf(v.auth)))];
    CredentialCount(before, rest, Username);
    CredentialCount(before, rest, Password);
    CredentialCount(before, rest, Database);
    RestCounts(v.auth);
  }

  /** The prefix is the statements before the credentials followed by the credentials and the database. */
  lemma PrefixSplit(v: TestVector)
    ensures Prefix(v) == ([ExpectOk(v.uri), HostCount(|v.hosts|)] + HostStmts(v.hosts))
                         + (CredentialStmts(v.auth) + [StrEq(Database, ReplaceNul(DatabaseOf(v.auth)))])
  {
    AppendAssoc([ExpectOk(v.uri), HostCount(|v.hosts|)] + HostStmts(v.hosts),
                CredentialStmts(v.auth), [StrEq(Database, ReplaceNul(DatabaseOf(v.auth)))]);
  }

  /** The credentials and the database compare the username and the database once, and the password once exactly when set. */
  lemma RestCounts(auth: Option<Auth>)
    ensures var rest := CredentialStmts(auth) + [StrEq(Database, ReplaceNul(DatabaseOf(auth)))];
            && CountAsserting(rest, Username) == 1
            && CountAsserting(rest, Password) == (if auth.Some? then 1 else 0)
            && CountAsserting(rest, Database) == 1
  {
    var rest := CredentialStmts(auth) + [StrEq(Database, ReplaceNul(DatabaseOf(auth)))];
    CountUnique(rest, Username, 0);
    CountUnique(rest, Database, 2);
    if auth.Some? {
      CountUnique(rest, Password, 1);
    } else {
      CountNone(rest, Password);
    }
  }

  /** The statements before the credentials: the parse, the host count and the host comparisons. */
  lemma PrefixBeforeCredentials(v: TestVector)
    ensures var before := [ExpectOk(v.uri), HostCount(|v.hosts|)] + HostStmts(v.hosts);
            && |before| == 2 + |v.hosts|
            && PasswordNotSet !in before
            && forall j :: 0 <= j < |before| ==> before[j].ExpectOk? || before[j].HostCount? || before[j].field.HostAt?
  {
    var hosts := HostStmts(v.hosts);
    assert forall j :: 0 <= j < |hosts| ==> hosts[j].StrEq? && hosts[j].field.HostAt?;
  }

  lemma CredentialCount(before: seq<Stmt>, rest: seq<Stmt>, f: Field)
    requires forall j :: 0 <= j < |before| ==> !Compares(before[j], f)
    ensures CountAsserting(before + rest, f) == CountAsserting(rest, f)
  {
    CountConcat(before, rest, f);
    CountNone(before, f);
  }

  /**
   * After the hosts come the credentials and the database: without auth, an empty
   * username and an unset password flag; with auth, the escaped username and
   * password. The database is compared in every valid vector, exactly once, with
   * the escaped database of the (possibly zero-valued) auth record.
   */
  lemma EmitCredentials(v: TestVector, order: seq<string>)
    requires OrderFits(v, order) && v.valid && Emit(v, order).Success?
    ensures var body := Emit(v, order).value.body;
            var c := 2 + |v.hosts|;
            && c + 3 <= |body|
            && (v.auth.None? ==> body[c] == StrEq(Username, "") && body[c + 1] == PasswordNotSet)
            && (v.auth.Some? ==>
                  && body[c] == StrEq(Username, ReplaceNul(v.auth.value.username))
                  && body[c + 1] == StrEq(Password, ReplaceNul(v.auth.value.password)))
            && body[c + 2] == StrEq(Database, ReplaceNul(DatabaseOf(v.auth)))
            && (PasswordNotSet in body <==> v.auth.None?)
            && CountAsserting(body, Username) == 1
            && CountAsserting(body, Password) == (if v.auth.Some? then 1 else 0)
            && CountAsserting(body, Database) == 1
  {
    EmitValidShape(v, order);
    PrefixCredentials(v);
    var opts := OptionStmts(v.options, order).value;
    var body := Prefix(v) + opts;
    forall f | f in {Username, Password, Database}
      ensures CountAsserting(body, f) == CountAsserting(Prefix(v), f)
    {
      CountConcat(Prefix(v), opts, f);
      OptionsNeverCompare(v.options, order, f);
    }
    OptionsNeverCompare(v.options, order, Username);
    assert PasswordNotSet in body <==> PasswordNotSet in Prefix(v);
    var c := 2 + |v.hosts|;
    assert body[c] == Prefix(v)[c] && body[c + 1] == Prefix(v)[c + 1] && body[c + 2] == Prefix(v)[c + 2];
  }

  /** With an empty option mapping the test ends at the database comparison: no option is checked. */
  lemma EmitOptionsAbsent(v: TestVector, order: seq<string>)
    requires OrderFits(v, order) && v.valid && |v.options| == 0
    ensures Emit(v, order).Success?
    ensures |Emit(v, order).value.body| == 5 + |v.hosts|
    ensures forall f :: IsOptionField(f) ==> CountAsserting(Emit(v, order).value.body, f) == 0
  {
    assert OptionStmts(v.options, order) == Success([]);
    EmitValidShape(v, order);
    PrefixHosts(v);
    assert Emit(v, order).value.body == Prefix(v);
    forall f | IsOptionField(f) ensures CountAsserting(Prefix(v), f) == 0 {
      PrefixNeverComparesOptions(v, f);
    }
  }

  /**
   * The literal an always-asserted string option is compared with: its escaped
   * value, or empty when absent. This and the two functions below read the option
   * block without its failure branches; OptionBlockShape shows they agree with
   * StringOption, PropertiesOption and TimeoutOption whenever the block emits.
   */
  function StringExpected(options: map<string, OptionValue>, key: string): string {
    if key in options && options[key].Str? then ReplaceNul(options[key].s) else ""
  }

  /** The authmechanismproperties comparisons, in the given iteration order (failure-free reading of PropertiesOption). */
  function PropertiesExpected(options: map<string, OptionValue>, order: seq<string>): (r: seq<Stmt>)
    requires OrderWithin(options, order)
    ensures forall j :: 0 <= j < |r| ==> r[j].StrEq? && r[j].field.AuthMechanismProperty?
  {
    if PropertiesKey in options && options[PropertiesKey].Map?
    then PropertyStmts(options[PropertiesKey].entries, order)
    else []
  }

  /** The wtimeoutms comparison, if any (failure-free reading of TimeoutOption). */
  function TimeoutExpected(options: map<string, OptionValue>): seq<Stmt> {
    if WTimeoutKey in options && options[WTimeoutKey].Int?
    then [DurationMs(WTimeout, options[WTimeoutKey].i)]
    else []
  }

  /** A non-empty option block that does not abort is well typed and has this layout. */
  lemma OptionBlockShape(options: map<string, OptionValue>, order: seq<string>)
    requires OrderWithin(options, order) && |options| > 0 && OptionStmts(options, order).Success?
    ensures WellTyped(options)
    ensures OptionStmts(options, order).value ==
              [StrEq(AuthMechanism, StringExpected(options, AuthMechanismKey))]
              + PropertiesExpected(options, order)
              + [StrEq(ReplicaSet, StringExpected(options, ReplicaSetKey))]
              + TimeoutExpected(options)
  {
  }

  /** The scalar options are compared only in their own parts of the option block. */
  lemma BlockCount(mech: seq<Stmt>, props: seq<Stmt>, rs: seq<Stmt>, wt: seq<Stmt>, f: Field)
    requires !f.AuthMechanismProperty?
    requires forall j :: 0 <= j < |props| ==> props[j].StrEq? && props[j].field.AuthMechanismProperty?
    ensures CountAsserting(mech + props + rs + wt, f) ==
              CountAsserting(mech, f) + CountAsserting(rs, f) + CountAsserting(wt, f)
  {
    CountConcat(mech + props + rs, wt, f);
    CountConcat(mech + props, rs, f);
    CountConcat(mech, props, f);
    CountNone(props, f);
  }

  /** The option block on its own: each scalar option compared as often as it is meant to be. */
  lemma OptionBlockCoverage(options: map<string, OptionValue>, order: seq<string>)
    requires OrderWithin(options, order) && |options| > 0 && OptionStmts(options, order).Success?
    ensures var opts := OptionStmts(options, order).value;
            && CountAsserting(opts, AuthMechanism) == 1
            && StrEq(AuthMechanism, StringExpected(options, AuthMechanismKey)) in opts
            && CountAsserting(opts, ReplicaSet) == 1
            && StrEq(ReplicaSet, StringExpected(options, ReplicaSetKey)) in opts
            && CountAsserting(opts, WTimeout) == (if WTimeoutKey in options then 1 else 0)
            && (WTimeoutKey in options ==> DurationMs(WTimeout, options[WTimeoutKey].i) in opts)
  {
    OptionBlockShape(options, order);
    var mech := [StrEq(AuthMechanism, StringExpected(options, AuthMechanismKey))];
    var props := PropertiesExpected(options, order);
    var rs := [StrEq(ReplicaSet, StringExpected(options, ReplicaSetKey))];
    var wt := TimeoutExpected(options);
    BlockFieldCounts(mech, props, rs, wt, WTimeoutKey in options);
    var opts := mech + props + rs + wt;
    if WTimeoutKey in options {
      assert opts[|opts| - 1] == wt[0];
    }
    assert opts[0] == mech[0];
    assert opts[|mech + props|] == rs[0];
  }

  /** Counts in a block made of one mechanism comparison, the properties, one replica set comparison and the timeout. */
  lemma BlockFieldCounts(mech: seq<Stmt>, props: seq<Stmt>, rs: seq<Stmt>, wt: seq<Stmt>, timeout: bool)
    requires |mech| == 1 && mech[0].StrEq? && mech[0].field == AuthMechanism
    requires |rs| == 1 && rs[0].StrEq? && rs[0].field == ReplicaSet
    requires forall j :: 0 <= j < |props| ==> props[j].StrEq? && props[j].field.AuthMechanismProperty?
    requires if timeout then |wt| == 1 && wt[0].DurationMs? && wt[0].field == WTimeout else wt == []
    ensures CountAsserting(mech + props + rs + wt, AuthMechanism) == 1
    ensures CountAsserting(mech + props + rs + wt, ReplicaSet) == 1
    ensures CountAsserting(mech + props + rs + wt, WTimeout) == if timeout then 1 else 0
  {
    BlockCount(mech, props, rs, wt, AuthMechanism);
    BlockCount(mech, props, rs, wt, ReplicaSet);
    BlockCount(mech, props, rs, wt, WTimeout);
    CountUnique(mech, AuthMechanism, 0);
    CountUnique(rs, ReplicaSet, 0);
    if timeout {
      CountUnique(wt, WTimeout, 0);
    } else {
      CountNone(wt, WTimeout);
    }
  }

  /**
   * With a non-empty option mapping, authmechanism and replicaset are each compared
   * exactly once (with the empty string when absent), and wtimeoutms is compared,
   * in milliseconds, exactly when it is present.
   */
  lemma EmitOptionCoverage(v: TestVector, order: seq<string>)
    requires OrderFits(v, order) && v.valid && |v.options| > 0 && Emit(v, order).Success?
    ensures var body := Emit(v, order).value.body;
            && CountAsserting(body, AuthMechanism) == 1
            && StrEq(AuthMechanism, StringExpected(v.options, AuthMechanismKey)) in body
            && CountAsserting(body, ReplicaSet) == 1
            && StrEq(ReplicaSet, StringExpected(v.options, ReplicaSetKey)) in body
            && CountAsserting(body, WTimeout) == (if WTimeoutKey in v.options then 1 else 0)
            && (WTimeoutKey in v.options ==> DurationMs(WTimeout, v.options[WTimeoutKey].i) in body)
  {
    EmitValidShape(v, order);
    var opts := OptionStmts(v.options, order).value;
    OptionBlockCoverage(v.options, order);
    var body := Prefix(v) + opts;
    assert forall x :: x in opts ==> x in body;
    CountConcat(Prefix(v), opts, AuthMechanism);
    PrefixNeverComparesOptions(v, AuthMechanism);
    CountConcat(Prefix(v), opts, ReplicaSet);
    PrefixNeverComparesOptions(v, ReplicaSet);
    CountConcat(Prefix(v), opts, WTimeout);
    PrefixNeverComparesOptions(v, WTimeout);
  }

  /** Iterating a whole mapping compares each of its keys once, with its escaped value. */
  lemma PropertyCount(entries: map<string, string>, order: seq<string>, key: string)
    requires IsEnumeration(order, entries.Keys)
    ensures CountAsserting(PropertyStmts(entries, order), AuthMechanismProperty(key)) == (if key in entries then 1 else 0)
    ensures key in entries ==> StrEq(AuthMechanismProperty(key), ReplaceNul(entries[key])) in PropertyStmts(entries, order)
  {
    var props := PropertyStmts(entries, order);
    var f := AuthMechanismProperty(key);
    if key in entries {
      var j :| 0 <= j < |order| && order[j] == key;
      assert props[j] == StrEq(f, ReplaceNul(entries[key]));
      CountUnique(props, f, j);
    } else {
      CountNone(props, f);
    }
  }

  /** The option block on its own compares each property key once, with its escaped value. */
  lemma OptionBlockProperty(options: map<string, OptionValue>, order: seq<string>, key: string)
    requires OrderWithin(options, order) && |options| > 0 && OptionStmts(options, order).Success?
    requires PropertiesKey in options && options[PropertiesKey].Map? ==>
               IsEnumeration(order, options[PropertiesKey].entries.Keys)
    ensures var opts := OptionStmts(options, order).value;
            var present := PropertiesKey in options && key in options[PropertiesKey].entries;
            && CountAsserting(opts, AuthMechanismProperty(key)) == (if present then 1 else 0)
            && (present ==> StrEq(AuthMechanismProperty(key), ReplaceNul(options[PropertiesKey].entries[key])) in opts)
  {
    OptionBlockShape(options, order);
    var f := AuthMechanismProperty(key);
    var mech := [StrEq(AuthMechanism, StringExpected(options, AuthMechanismKey))];
    var props := PropertiesExpected(options, order);
    var rs := [StrEq(ReplicaSet, StringExpected(options, ReplicaSetKey))];
    var wt := TimeoutExpected(options);
    CountConcat(mech + props + rs, wt, f);
    CountConcat(mech + props, rs, f);
    CountConcat(mech, props, f);
    CountNone(wt, f);
    if PropertiesKey in options {
      PropertyCount(options[PropertiesKey].entries, order, key);
      assert forall x :: x in props ==> x in mech + props + rs + wt;
    } else {
      CountNone(props, f);
    }
  }

  /**
   * Every entry of the authmechanismproperties mapping is compared exactly once with
   * its escaped value, whatever order the map is iterated in; no other key is compared.
   */
  lemma EmitPropertiesCovered(v: TestVector, order: seq<string>, key: string)
    requires OrderFits(v, order) && v.valid && Emit(v, order).Success?
    ensures var body := Emit(v, order).value.body;
            var present := |v.options| > 0 && PropertiesKey in v.options &&
                           key in v.options[PropertiesKey].entries;
            && CountAsserting(body, AuthMechanismProperty(key)) == (if present then 1 else 0)
            && (present ==>
                  StrEq(AuthMechanismProperty(key), ReplaceNul(v.options[PropertiesKey].entries[key])) in body)
  {
    EmitValidShape(v, order);
    var f := AuthMechanismProperty(key);
    var opts := OptionStmts(v.options, order).value;
    CountConcat(Prefix(v), opts, f);
    PrefixNeverComparesOptions(v, f);
    if |v.options| > 0 {
      OptionBlockProperty(v.options, order, key);
      assert forall x :: x in opts ==> x in Prefix(v) + opts;
    } else {
      assert opts == [];
    }
  }

  /** Keys other than the four known options never influence the generated test. */
  predicate SameOption(a: map<string, OptionValue>, b: map<string, OptionValue>, key: string) {
    (key in a <==> key in b) && (key in a ==> a[key] == b[key])
  }

  lemma EmitIgnoresUnknownKeys(v: TestVector, w: TestVector, order: seq<string>)
    requires OrderFits(v, order) && OrderFits(w, order)
    requires v.description == w.description && v.uri == w.uri && v.valid == w.valid
    requires v.hosts == w.hosts && v.auth == w.auth
    requires |v.options| == 0 <==> |w.options| == 0
    requires SameOption(v.options, w.options, AuthMechanismKey)
    requires SameOption(v.options, w.options, PropertiesKey)
    requires SameOption(v.options, w.options, ReplicaSetKey)
    requires SameOption(v.options, w.options, WTimeoutKey)
    ensures Emit(v, order) == Emit(w, order)
  {
  }

  // ---------------------------------------------------------------------------
  // Worked vectors

  /** A valid vector with one host on port 27017, no auth and no options. */
  const NoAuthVector: TestVector :=
    TestVector("Valid host, no auth", "mongodb://localhost:27017", true,
               [Host("hostname", "localhost", 27017)], None, map[])

  /** The port 27017 prints as the numeral 27017. */
  lemma PortNumeral()
    ensures Decimal(27017) == "27017"
  {
    assert NatDecimal(27) == "27" by {
      assert NatDecimal(2) == "2";
    }
    assert NatDecimal(2701) == "2701" by {
      assert NatDecimal(270) == NatDecimal(27) + [Digit(0)];
    }
    assert NatDecimal(27017) == NatDecimal(2701) + [Digit(7)];
  }

  /** Its one host renders as localhost:27017. */
  lemma NoAuthVectorHost()
    ensures HostString(NoAuthVector.hosts[0]) == "localhost:27017"
  {
    var h := NoAuthVector.hosts[0];
    assert h.kind != "ip_literal" by {
      assert h.kind[0] != "ip_literal"[0];
    }
    PortNumeral();
    assert HostString(h) == "localhost" + ":" + "27017";
  }

  lemma NoAuthVectorBody()
    ensures Emit(NoAuthVector, []).Success?
    ensures Emit(NoAuthVector, []).value.body ==
              [ExpectOk("mongodb://localhost:27017"), HostCount(1),
               StrEq(HostAt(0), "localhost:27017"),
               StrEq(Username, ""), PasswordNotSet, StrEq(Database, "")]
  {
    var v := NoAuthVector;
    assert OptionStmts(v.options, []) == Success([]);
    EmitValidShape(v, []);
    NoAuthVectorHost();
    assert HostStmts(v.hosts) == [StrEq(HostAt(0), "localhost:27017")];
    assert CredentialStmts(v.auth) == [StrEq(Username, ""), PasswordNotSet];
    assert ReplaceNul(DatabaseOf(v.auth)) == "";
    assert Emit(v, []).value.body == Prefix(v) + [];
  }

  /** The same vector makes the generator as written abort on the nil auth record. */
  lemma NoAuthVectorAbortsAsWritten()
    ensures EmitAsWritten(NoAuthVector, []) == Failure(NilAuth)
  {
  }

  /** Every valid vector without auth aborts as written, although its test is well defined. */
  lemma NilAuthAbortsAsWritten(v: TestVector, order: seq<string>)
    requires OrderFits(v, order) && v.valid && v.auth.None?
    ensures EmitAsWritten(v, order) == Failure(NilAuth)
    ensures Emit(v, order).Success? ==>
              StrEq(Database, "") in Emit(v, order).value.body &&
              StrEq(Username, "") in Emit(v, order).value.body &&
              PasswordNotSet in Emit(v, order).value.body
  {
    if Emit(v, order).Success? {
      EmitCredentials(v, order);
    }
  }

  /** A vector whose only option is wtimeoutms: 5000. */
  const TimeoutVector: TestVector :=
    TestVector("Timeout only", "mongodb://localhost/?wtimeoutMS=5000", true,
               [Host("hostname", "localhost", 0)], None, map[WTimeoutKey := Int(5000)])

  /** Its option block holds three comparisons: two defaulted strings and the timeout. */
  lemma TimeoutVectorOptions()
    ensures Emit(TimeoutVector, []).Success?
    ensures Emit(TimeoutVector, []).value.body[6..] ==
              [StrEq(AuthMechanism, ""), StrEq(ReplicaSet, ""), DurationMs(WTimeout, 5000)]
  {
    var v := TimeoutVector;
    assert |v.options| == 1 by {
      assert v.options.Keys == {WTimeoutKey};
    }
    assert StringOption(v.options, AuthMechanismKey, AuthMechanism) == Success(StrEq(AuthMechanism, ""));
    assert StringOption(v.options, ReplicaSetKey, ReplicaSet) == Success(StrEq(ReplicaSet, ""));
    assert OptionStmts(v.options, []).Success?;
    assert Emit(v, []).Success?;
    EmitValidShape(v, []);
    OptionBlockShape(v.options, []);
    assert StringExpected(v.options, AuthMechanismKey) == "";
    assert StringExpected(v.options, ReplicaSetKey) == "";
    assert PropertiesExpected(v.options, []) == [];
    assert TimeoutExpected(v.options) == [DurationMs(WTimeout, 5000)];
    var opts := OptionStmts(v.options, []).value;
    assert opts == [StrEq(AuthMechanism, ""), StrEq(ReplicaSet, ""), DurationMs(WTimeout, 5000)];
    PrefixCredentials(v);
    assert Emit(v, []).value.body == Prefix(v) + opts;
  }
}
