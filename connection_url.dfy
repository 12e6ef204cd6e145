/**
 * The PostgreSQL connection form of
 * src/components/sidebar/workspace/DbConnectionModalContent/PostgreSqlConnectionModal.tsx: the
 * connection-URL preview shown while the form is edited, the form's validation rules, and its
 * default values. The optional `user` and `password` fields are `""` when undefined: both only
 * reach the preview when non-empty, so the two are treated alike.
 */
module ConnectionUrls {
  import opened Wrappers

  const UserAndPassword := "User & Password"
  const NoAuthentication := "No Authentication"

  /** The form's values. */
  datatype FormValues = FormValues(name: string, host: string, port: int, authenticationType: string,
                                   user: string, password: string, database: string)

  /** `defaultValues` (lines 49-57). */
  const Defaults := FormValues("", "localhost", 5432, UserAndPassword, "", "", "postgres")

  // ---------------------------------------------------------------------------
  // Numbers as text
  // ---------------------------------------------------------------------------

  function DigitChar(d: nat): char
    requires d < 10
  {
    "0123456789"[d]
  }

  /** The decimal digits of `n`, without leading zeros. */
  function NatText(n: nat): (s: string)
    ensures |s| > 0
    ensures forall i :: 0 <= i < |s| ==> '0' <= s[i] <= '9'
    decreases n
  {
    if n < 10 then [DigitChar(n)] else NatText(n / 10) + [DigitChar(n % 10)]
  }

  /** How a template literal writes an integer. */
  function IntText(n: int): (s: string)
    ensures forall i :: 0 <= i < |s| ==> s[i] == '-' || '0' <= s[i] <= '9'
  {
    if n < 0 then "-" + NatText(-n) else NatText(n)
  }

  /** The number a string of decimal digits stands for. */
  function DigitsValue(s: string): nat
    requires forall i :: 0 <= i < |s| ==> '0' <= s[i] <= '9'
    decreases |s|
  {
    if s == [] then 0 else 10 * DigitsValue(s[..|s| - 1]) + (s[|s| - 1] - '0') as nat
  }

  /** Reading the digits back gives the number: the port in the preview is the port in the form. */
  lemma {:induction false} NatTextValue(n: nat)
    ensures DigitsValue(NatText(n)) == n
    decreases n
  {
    if n >= 10 {
      NatTextValue(n / 10);
      var s := NatText(n);
      assert s[..|s| - 1] == NatText(n / 10);
    }
  }

  // ---------------------------------------------------------------------------
  // The preview (lines 67-77)
  // ---------------------------------------------------------------------------

  /** `'*'.repeat(n)`. */
  function Stars(n: nat): (s: string)
    ensures |s| == n && forall i :: 0 <= i < n ==> s[i] == '*'
  {
    if n == 0 then "" else Stars(n - 1) + "*"
  }

  /** The `:****` part: one `*` per password character, nothing without a password. */
  function PasswordMask(password: string): (s: string)
    ensures password == "" ==> s == ""
    ensures password != "" ==> |s| == |password| + 1 && s[0] == ':' && forall i :: 1 <= i < |s| ==> s[i] == '*'
  {
    if password != "" then ":" + Stars(|password|) else ""
  }

  /** The `/database` suffix, present exactly when a database is given. */
  function DatabaseSuffix(database: string): string {
    if database != "" then "/" + database else ""
  }

  /** Whether the preview names the user (line 69). */
  predicate ShowsUser(v: FormValues) {
    v.authenticationType == UserAndPassword && v.user != ""
  }

  /** The preview before its database suffix. */
  function Authority(protocol: string, v: FormValues): string {
    if ShowsUser(v) then
      protocol + "://" + v.user + PasswordMask(v.password) + "@" + v.host + ":" + IntText(v.port)
    else
      protocol + "://" + (if v.host != "" then v.host else "localhost") + ":"
      + IntText(if v.port != 0 then v.port else 5432)
  }

  /** The preview URL for `protocol` (the modal's `dbProtocol`). */
  function Preview(protocol: string, v: FormValues): (url: string)
    ensures protocol + "://" <= url
  {
    Authority(protocol, v) + DatabaseSuffix(v.database)
  }

  /** The longest run of decimal digits that ends `s`. */
  function TrailingDigits(s: string): (t: string)
    ensures |t| <= |s| && t == s[|s| - |t|..]
    ensures forall i :: 0 <= i < |t| ==> '0' <= t[i] <= '9'
    decreases |s|
  {
    if s == [] || !('0' <= s[|s| - 1] <= '9') then ""
    else TrailingDigits(s[..|s| - 1]) + [s[|s| - 1]]
  }

  lemma {:induction false} TrailingDigitsAfter(x: string, c: char, d: string)
    requires !('0' <= c <= '9')
    requires forall i :: 0 <= i < |d| ==> '0' <= d[i] <= '9'
    ensures TrailingDigits(x + [c] + d) == d
    decreases |d|
  {
    var s := x + [c] + d;
    if d == [] {
      assert s[|s| - 1] == c;
    } else {
      var init := d[..|d| - 1];
      assert d == init + [d[|d| - 1]];
      assert s == (x + [c] + init) + [d[|d| - 1]];
      assert s[..|s| - 1] == x + [c] + init;
      TrailingDigitsAfter(x, c, init);
    }
  }

  /**
   * The port read back out of the preview: the digits that end the URL before its database
   * part are the form's port, or 5432 when no user is shown and the port is empty or zero.
   */
  lemma PreviewPort(protocol: string, v: FormValues)
    requires v.port >= 0
    ensures DigitsValue(TrailingDigits(Preview(protocol, v.(database := ""))))
         == if ShowsUser(v) || v.port != 0 then v.port else 5432
  {
    var w := v.(database := "");
    var port := if ShowsUser(v) || v.port != 0 then v.port else 5432;
    var head := if ShowsUser(v) then protocol + "://" + v.user + PasswordMask(v.password) + "@" + v.host
                else protocol + "://" + (if v.host != "" then v.host else "localhost");
    assert Preview(protocol, w) == head + [':'] + NatText(port);
    TrailingDigitsAfter(head, ':', NatText(port));
    NatTextValue(port);
  }

  /**
   * The user shows exactly when the type is `User & Password` and a user is given, and then
   * right after the scheme; `@` marks it when protocol, host and database have none.
   */
  lemma PreviewShowsUser(protocol: string, v: FormValues)
    requires '@' !in protocol && '@' !in v.host && '@' !in v.database
    ensures '@' in Preview(protocol, v) <==> ShowsUser(v)
    ensures ShowsUser(v) ==> protocol + "://" + v.user <= Preview(protocol, v)
  {
    if ShowsUser(v) {
      UserShown(protocol, v);
    } else {
      NoUserShown(protocol, v);
    }
  }

  lemma UserShown(protocol: string, v: FormValues)
    requires ShowsUser(v)
    ensures '@' in Preview(protocol, v)
    ensures protocol + "://" + v.user <= Preview(protocol, v)
  {
    var start := protocol + "://" + v.user;
    var tail := v.host + ":" + IntText(v.port) + DatabaseSuffix(v.database);
    assert Preview(protocol, v) == start + (PasswordMask(v.password) + "@" + tail);
  }

  lemma NoUserShown(protocol: string, v: FormValues)
    requires !ShowsUser(v)
    requires '@' !in protocol && '@' !in v.host && '@' !in v.database
    ensures '@' !in Preview(protocol, v)
  {
    var host := if v.host != "" then v.host else "localhost";
    var port := IntText(if v.port != 0 then v.port else 5432);
    assert '@' !in port;
    assert '@' !in DatabaseSuffix(v.database);
    assert '@' !in "://" && '@' !in ":" && '@' !in "localhost";
  }

  /** The preview depends on the password only through its length: the text itself never shows. */
  lemma PreviewHidesPassword(protocol: string, v: FormValues, password: string)
    requires |password| == |v.password|
    ensures Preview(protocol, v.(password := password)) == Preview(protocol, v)
  {
  }

  /** A database adds `/` and its name at the very end, and nothing else changes. */
  lemma PreviewDatabase(protocol: string, v: FormValues)
    requires v.database != ""
    ensures Preview(protocol, v) == Preview(protocol, v.(database := "")) + "/" + v.database
  {
    var w := v.(database := "");
    assert Authority(protocol, w) == Authority(protocol, v);
    assert Preview(protocol, w) == Authority(protocol, v);
    assert Authority(protocol, v) + ("/" + v.database) == Authority(protocol, v) + "/" + v.database;
  }

  /** With the default values the preview is `localhost:5432/postgres`. */
  lemma DefaultPreview(protocol: string)
    ensures Preview(protocol, Defaults) == protocol + "://" + "localhost" + ":" + "5432" + "/postgres"
  {
    DefaultPortText();
    var v := Defaults;
    assert v.user == "" && v.host == "localhost" && v.port == 5432 && v.database == "postgres";
    assert Authority(protocol, v) == protocol + "://" + "localhost" + ":" + "5432";
    assert DatabaseSuffix(v.database) == "/postgres";
  }

  lemma DefaultPortText()
    ensures IntText(5432) == "5432"
  {
    assert NatText(5) == "5";
    assert NatText(54) == "54";
    assert NatText(543) == "543";
  }

  // ---------------------------------------------------------------------------
  // Validation (lines 30-41)
  // ---------------------------------------------------------------------------

  /** What `formSchema` can reject, in field order. */
  datatype FormError = NameTooShort | NameTooLong | HostRequired | InvalidAuthenticationType

  /** The messages the schema gives; the enum's message is the validation library's own (None). */
  function Message(e: FormError): Option<string> {
    match e
    case NameTooShort => Some("Name must be at least 2 characters")
    case NameTooLong => Some("Name must be at most 50 characters")
    case HostRequired => Some("Host is required")
    case InvalidAuthenticationType => None
  }

  /** The errors `formSchema` reports for `v`. */
  function Errors(v: FormValues): (errors: seq<FormError>)
    ensures NameTooShort in errors <==> |v.name| < 2
    ensures NameTooLong in errors <==> |v.name| > 50
    ensures HostRequired in errors <==> |v.host| < 1
    ensures InvalidAuthenticationType in errors <==> v.authenticationType != UserAndPassword && v.authenticationType != NoAuthentication
  {
    (if |v.name| < 2 then [NameTooShort] else [])
    + (if |v.name| > 50 then [NameTooLong] else [])
    + (if |v.host| < 1 then [HostRequired] else [])
    + (if v.authenticationType != UserAndPassword && v.authenticationType != NoAuthentication
       then [InvalidAuthenticationType] else [])
  }

  /** The form is accepted exactly when the name has 2 to 50 characters, a host is given, and the type is listed. */
  lemma Accepted(v: FormValues)
    ensures Errors(v) == [] <==>
              && 2 <= |v.name| <= 50
              && |v.host| >= 1
              && (v.authenticationType == UserAndPassword || v.authenticationType == NoAuthentication)
  {
    if Errors(v) == [] {
      assert NameTooShort !in Errors(v) && NameTooLong !in Errors(v);
    }
  }

  /** The defaults only lack a name. */
  lemma DefaultsNeedName()
    ensures Errors(Defaults) == [NameTooShort]
    ensures forall name :: 2 <= |name| <= 50 ==> Errors(Defaults.(name := name)) == []
  {
  }
}
