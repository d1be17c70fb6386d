/**
 * The text the generator writes for each statement of the model: the Go lines
 * that printf, printlnf and printIfNotEqual append to the buffer.
 */
module Render {
  import opened Strings
  import opened Literals
  import opened Emitter

  /** printlnf: the formatted text followed by a newline. */
  function Line(s: string): string {
    s + "\n"
  }

  /** The Go expression that reads a field of the parsed URI. */
  function FieldExpr(f: Field): string {
    match f
    case HostAt(i) => "uri.Hosts[" + Decimal(i) + "]"
    case Username => "uri.Username"
    case Password => "uri.Password"
    case Database => "uri.Database"
    case AuthMechanism => "uri.AuthMechanism"
    case AuthMechanismProperty(k) => "uri.AuthMechanismProperties[\"" + k + "\"]"
    case ReplicaSet => "uri.ReplicaSet"
    case WTimeout => "uri.WTimeout"
  }

  /**
   * printIfNotEqual(name, expected): a comparison of the two Go expressions whose
   * failure message quotes both, with their double quotes escaped.
   */
  function IfNotEqual(name: string, expected: string): string {
    Line("if " + name + " != " + expected + " {")
    + Line("t.Fatalf(\"expected " + EscapeQuotes(name) + " to be " + EscapeQuotes(expected)
           + ", but got \\\"%s\\\"\", " + name + ")")
    + Line("}")
  }

  /** printStringIfNotEqual: the expected value becomes a Go string literal by wrapping it in double quotes. */
  function StringIfNotEqual(name: string, expected: string): string {
    IfNotEqual(name, "\"" + expected + "\"")
  }

  /** The Go text of one statement; quote stands for fmt's %q rendering of the URI. */
  function RenderStmt(s: Stmt, quote: string -> string): string {
    match s
    case ExpectError(u) =>
      Line("_, err := ParseURI(" + quote(u) + ")")
      + Line("if err == nil {")
      + Line("t.Fatal(\"expected an error but didn't get one\")")
      + Line("}")
    case ExpectOk(u) =>
      Line("uri, err := ParseURI(" + quote(u) + ")")
      + Line("if err != nil {")
      + Line("t.Fatalf(\"error parsing \\\"%s\\\": %s\", \"" + u + "\",  err)")
      + Line("}")
    case HostCount(n) =>
      Line("if len(uri.Hosts) != " + Decimal(n) + " {")
      + Line("t.Fatalf(\"expected " + Decimal(n) + " hosts, but had %d: %v\", len(uri.Hosts), uri.Hosts)")
      + Line("}")
    case StrEq(f, lit) => StringIfNotEqual(FieldExpr(f), lit)
    case PasswordNotSet =>
      Line("if uri.PasswordSet {")
      + Line("t.Fatalf(\"expected password to not be set\")")
      + Line("}")
    case DurationMs(f, ms) => IfNotEqual(FieldExpr(f), "time.Duration(" + Decimal(ms) + ") * time.Millisecond")
  }

  /** The texts of xs, one after the other. */
  function Concat<T>(xs: seq<T>, text: T -> string): string {
    if xs == [] then "" else Concat(xs[..|xs| - 1], text) + text(xs[|xs| - 1])
  }

  lemma {:induction false} ConcatAppend<T>(a: seq<T>, b: seq<T>, text: T -> string)
    ensures Concat(a + b, text) == Concat(a, text) + Concat(b, text)
    decreases |b|
  {
    if b == [] {
      assert a + b == a;
    } else {
      assert (a + b)[..|a + b| - 1] == a + b[..|b| - 1];
      ConcatAppend(a, b[..|b| - 1], text);
    }
  }

  function StmtText(quote: string -> string): Stmt -> string {
    s => RenderStmt(s, quote)
  }

  /** The statements' texts one after the other. */
  function RenderBody(body: seq<Stmt>, quote: string -> string): string {
    Concat(body, StmtText(quote))
  }

  /** The two blank lines and the signature that open a test function. */
  function Header(name: string): string {
    "\n\n" + Line("func TestParseURI_" + name + "(t *testing.T) {")
  }

  /** A whole generated test function. */
  function RenderTest(t: TestFunc, quote: string -> string): string {
    Header(t.name) + RenderBody(t.body, quote) + Line("}")
  }

  function TestText(quote: string -> string): TestFunc -> string {
    t => RenderTest(t, quote)
  }

  /** The test functions one after the other. */
  function RenderTests(ts: seq<TestFunc>, quote: string -> string): string {
    Concat(ts, TestText(quote))
  }

  /** The package clause and imports written once, before any test. */
  const Preamble: string :=
    Line("package core_test")
    + Line("import \"testing\"")
    + Line("import \"time\"")
    + Line("import . \"github.com/10gen/mongo-go-driver/core\"")

  /** The expressions of distinct host indices differ, so every host comparison reads its own host. */
  lemma HostExprsDistinct(i: nat, j: nat)
    requires i != j
    ensures FieldExpr(HostAt(i)) != FieldExpr(HostAt(j))
  {
    var p := "uri.Hosts[";
    var a, b := FieldExpr(HostAt(i)), FieldExpr(HostAt(j));
    if a == b {
      assert |Decimal(i)| == |Decimal(j)|;
      assert a[|p|..|a| - 1] == Decimal(i);
      assert b[|p|..|b| - 1] == Decimal(j);
      DecimalRoundTrip(i);
      DecimalRoundTrip(j);
    }
  }
}
