/**
 Listener authentication for Redis: what is answered locally, what is forwarded, and how a
 HELLO that carries credentials is rewritten. Upper-casing and white space are ASCII.
 */
module RedisAuth {
  import opened Wrappers
  import opened Decimal
  import opened RespGrammar
  import opened RespParser
  import opened RespPrinting

  datatype Options = Options(listenerUsername: string, listenerPassword: string, database: nat)

  /** A request as read from the client: its bytes and its value. */
  datatype Frame = Frame(raw: string, value: Value)

  /** Exactly one of `forward` and `local` is non-empty. */
  datatype Decision = Decision(operation: string, redacted: bool, forward: string, local: string)

  const WRONG_PASS: string := "-WRONGPASS invalid username-password pair or user is disabled.\r\n"
  const NO_AUTH: string := "-NOAUTH Authentication required.\r\n"
  const OK_REPLY: string := "+OK\r\n"

  // ----- text ----------------------------------------------------------------------------------

  function UpperChar(c: char): char {
    if 'a' <= c <= 'z' then (c as int - 32) as char else c
  }

  function Upper(s: string): (r: string)
    ensures |r| == |s|
  {
    if s == "" then "" else [UpperChar(s[0])] + Upper(s[1..])
  }

  predicate IsSpace(c: char) {
    c == ' ' || c == '\t' || c == '\n' || c == 11 as char || c == 12 as char || c == '\r'
  }

  function WordEnd(s: string, pos: nat): (end: nat)
    requires pos <= |s|
    ensures pos <= end <= |s|
    ensures pos < |s| && !IsSpace(s[pos]) ==> pos < end
    decreases |s| - pos
  {
    if pos == |s| || IsSpace(s[pos]) then pos else WordEnd(s, pos + 1)
  }

  function Fields(s: string, pos: nat := 0): seq<string>
    requires pos <= |s|
    decreases |s| - pos
  {
    if pos == |s| then []
    else if IsSpace(s[pos]) then Fields(s, pos + 1)
    else [s[pos..WordEnd(s, pos)]] + Fields(s, WordEnd(s, pos))
  }

  function Texts(items: seq<Value>): (texts: seq<string>)
    ensures |texts| == |items|
  {
    if items == [] then [] else [items[0].text] + Texts(items[1..])
  }

  function CommandArguments(v: Value): seq<string> {
    if v.items != [] then Texts(v.items) else Fields(v.text)
  }

  function Command(v: Value): string {
    var arguments := CommandArguments(v);
    if arguments == [] then "UNKNOWN" else Upper(arguments[0])
  }

  predicate ContainsAuth(arguments: seq<string>) {
    exists i :: 0 <= i < |arguments| && Upper(arguments[i]) == "AUTH"
  }

  // ----- credentials ---------------------------------------------------------------------------

  function ExpectedUser(options: Options): string {
    if options.listenerUsername == "" then "default" else options.listenerUsername
  }

  /** Whether the credentials are the listener's, or what is wrong with the request. */
  function ValidateListenerAuth(arguments: seq<string>, options: Options): Result<bool, string> {
    if options.listenerPassword == "" then
      Err("AUTH called without a password configured for the Portscope listener")
    else if |arguments| == 2 then
      Ok("default" == ExpectedUser(options) && arguments[1] == options.listenerPassword)
    else if |arguments| == 3 then
      Ok(arguments[1] == ExpectedUser(options) && arguments[2] == options.listenerPassword)
    else Err("wrong number of arguments for 'auth' command")
  }

  // ----- HELLO ---------------------------------------------------------------------------------

  datatype Clause =
    | Auth(username: string, password: string)
    | SetName(keyword: string, name: string)

  /** The option clauses after the protocol version; at most one AUTH. */
  function Clauses(arguments: seq<string>, index: nat, suppliedAuth: bool): Result<seq<Clause>, string>
    requires index <= |arguments|
    decreases |arguments| - index
  {
    if index == |arguments| then Ok([])
    else if Upper(arguments[index]) == "AUTH" then
      if suppliedAuth || index + 2 >= |arguments| then Err("syntax error")
      else
        var rest :- Clauses(arguments, index + 3, true);
        Ok([Auth(arguments[index + 1], arguments[index + 2])] + rest)
    else if Upper(arguments[index]) == "SETNAME" then
      if index + 1 >= |arguments| then Err("syntax error")
      else
        var rest :- Clauses(arguments, index + 2, suppliedAuth);
        Ok([SetName(arguments[index], arguments[index + 1])] + rest)
    else Err("syntax error")
  }

  /** The clauses that go upstream. */
  function Kept(clauses: seq<Clause>): seq<string> {
    if clauses == [] then []
    else if clauses[0].SetName? then [clauses[0].keyword, clauses[0].name] + Kept(clauses[1..])
    else Kept(clauses[1..])
  }

  function CredentialsOf(clauses: seq<Clause>): (credentials: Option<Clause>)
    ensures credentials.Some? ==> credentials.value.Auth?
  {
    if clauses == [] then None
    else if clauses[0].Auth? then Some(clauses[0])
    else CredentialsOf(clauses[1..])
  }

  datatype Hello = Hello(rewritten: seq<string>, suppliedAuth: bool, valid: bool)

  function AcceptsCredentials(clause: Clause, options: Options): bool
    requires clause.Auth?
  {
    ValidateListenerAuth(["AUTH", clause.username, clause.password], options) == Ok(true)
  }

  function HelloOf(arguments: seq<string>, options: Options): Result<Hello, string>
    requires |arguments| >= 1
  {
    if |arguments| == 1 then Ok(Hello(arguments, false, false))
    else if arguments[1] != "2" && arguments[1] != "3" then Err("NOPROTO unsupported protocol version")
    else
      var clauses :- Clauses(arguments, 2, false);
      var auth := CredentialsOf(clauses);
      Ok(Hello(arguments[..2] + Kept(clauses), auth.Some?, auth.Some? && AcceptsCredentials(auth.value, options)))
  }

  method InspectHello(arguments: seq<string>, options: Options)
    returns (rewritten: seq<string>, suppliedAuth: bool, valid: bool, syntax: string)
    requires |arguments| >= 1
    ensures match HelloOf(arguments, options)
            case Ok(hello) =>
              rewritten == hello.rewritten && suppliedAuth == hello.suppliedAuth && valid == hello.valid && syntax == ""
            case Err(e) => rewritten == [] && !suppliedAuth && !valid && syntax == e
  {
    hide Upper, ValidateListenerAuth;
    if |arguments| == 1 {
      return arguments, false, false, "";
    }
    if arguments[1] != "2" && arguments[1] != "3" {
      return [], false, false, "NOPROTO unsupported protocol version";
    }
    rewritten := arguments[..2];
    suppliedAuth, valid := false, false;
    var index := 2;
    ghost var seen: seq<Clause> := [];
    ghost var whole := Clauses(arguments, 2, false);
    assert whole.Ok? ==> [] + whole.value == whole.value;
    while index < |arguments|
      invariant 2 <= index <= |arguments|
      invariant rewritten == arguments[..2] + Kept(seen)
      invariant suppliedAuth == CredentialsOf(seen).Some?
      invariant valid == (suppliedAuth && AcceptsCredentials(CredentialsOf(seen).value, options))
      invariant var rest := Clauses(arguments, index, suppliedAuth);
                whole == if rest.Ok? then Ok(seen + rest.value) else rest
    {
      if Upper(arguments[index]) == "AUTH" {
        if suppliedAuth || index + 2 >= |arguments| {
          return [], false, false, "syntax error";
        }
        var clause := Auth(arguments[index + 1], arguments[index + 2]);
        KeptSnoc(seen, clause);
        suppliedAuth := true;
        var result := ValidateListenerAuth(["AUTH", arguments[index + 1], arguments[index + 2]], options);
        valid := result == Ok(true);
        index := index + 3;
        ClausesSnoc(seen, clause, Clauses(arguments, index, true));
        seen := seen + [clause];
      } else if Upper(arguments[index]) == "SETNAME" {
        if index + 1 >= |arguments| {
          return [], false, false, "syntax error";
        }
        var clause := SetName(arguments[index], arguments[index + 1]);
        KeptSnoc(seen, clause);
        rewritten := rewritten + [arguments[index], arguments[index + 1]];
        index := index + 2;
        ClausesSnoc(seen, clause, Clauses(arguments, index, suppliedAuth));
        seen := seen + [clause];
      } else {
        return [], false, false, "syntax error";
      }
    }
    assert seen + [] == seen;
    return rewritten, suppliedAuth, valid, "";
  }

  lemma ClausesSnoc(seen: seq<Clause>, clause: Clause, rest: Result<seq<Clause>, string>)
    ensures rest.Ok? ==> seen + ([clause] + rest.value) == seen + [clause] + rest.value
  {
  }

  lemma {:induction false} KeptSnoc(seen: seq<Clause>, clause: Clause)
    ensures Kept(seen + [clause]) == Kept(seen) + Kept([clause])
    ensures CredentialsOf(seen + [clause]) == if CredentialsOf(seen).Some? then CredentialsOf(seen) else CredentialsOf([clause])
  {
    if seen == [] {
      assert [] + [clause] == [clause];
    } else {
      assert (seen + [clause])[1..] == seen[1..] + [clause];
      KeptSnoc(seen[1..], clause);
    }
  }

  /**
   A rewritten HELLO carries the protocol version and the SETNAME clauses in their order, and no
   credentials; rewriting it again changes nothing.
   */
  lemma RewrittenHelloIsClean(arguments: seq<string>, options: Options)
    requires |arguments| >= 1 && HelloOf(arguments, options).Ok?
    ensures var hello := HelloOf(arguments, options).value;
            && |hello.rewritten| >= 1 && hello.rewritten[0] == arguments[0]
            && HelloOf(hello.rewritten, options) == Ok(Hello(hello.rewritten, false, false))
            && (|arguments| == 1 ==> hello.rewritten == arguments)
            && (|arguments| > 1 ==>
                && |hello.rewritten| >= 2 && hello.rewritten[1] == arguments[1]
                && Clauses(hello.rewritten, 2, false) == Ok(Names(Clauses(arguments, 2, false).value)))
  {
    if |arguments| > 1 {
      var clauses := Clauses(arguments, 2, false).value;
      ClauseKeywords(arguments, 2, false);
      var rewritten := arguments[..2] + Kept(clauses);
      assert rewritten[2..] == Kept(clauses);
      KeptClauses(rewritten, 2, clauses);
      OnlyNames(clauses);
      NamesKept(Names(clauses));
    }
  }

  predicate Keywords(clauses: seq<Clause>) {
    forall i :: 0 <= i < |clauses| && clauses[i].SetName? ==> Upper(clauses[i].keyword) == "SETNAME"
  }

  lemma {:induction false} ClauseKeywords(arguments: seq<string>, index: nat, suppliedAuth: bool)
    requires index <= |arguments| && Clauses(arguments, index, suppliedAuth).Ok?
    ensures Keywords(Clauses(arguments, index, suppliedAuth).value)
    decreases |arguments| - index
  {
    if index < |arguments| {
      if Upper(arguments[index]) == "AUTH" {
        ClauseKeywords(arguments, index + 3, true);
      } else {
        ClauseKeywords(arguments, index + 2, suppliedAuth);
      }
    }
  }

  /** The clauses without credentials. */
  function Names(clauses: seq<Clause>): seq<Clause> {
    if clauses == [] then []
    else if clauses[0].SetName? then [clauses[0]] + Names(clauses[1..])
    else Names(clauses[1..])
  }

  /** Reading back what was kept gives the SETNAME clauses. */
  lemma {:induction false} KeptClauses(arguments: seq<string>, index: nat, clauses: seq<Clause>)
    requires index <= |arguments| && arguments[index..] == Kept(clauses) && Keywords(clauses)
    ensures Clauses(arguments, index, false) == Ok(Names(clauses))
    decreases |clauses|
  {
    if clauses != [] {
      if clauses[0].SetName? {
        assert arguments[index] == arguments[index..][0] && arguments[index + 1] == arguments[index..][1];
        assert arguments[index + 2..] == arguments[index..][2..];
        KeptClauses(arguments, index + 2, clauses[1..]);
      } else {
        KeptClauses(arguments, index, clauses[1..]);
      }
    }
  }

  lemma {:induction false} OnlyNames(clauses: seq<Clause>)
    ensures CredentialsOf(Names(clauses)).None? && Kept(Names(clauses)) == Kept(clauses)
  {
    if clauses != [] {
      OnlyNames(clauses[1..]);
      if clauses[0].SetName? {
        assert Names(clauses)[1..] == Names(clauses[1..]);
      }
    }
  }

  lemma NamesKept(names: seq<Clause>)
    requires CredentialsOf(names).None?
    ensures CredentialsOf(names) == None
  {
  }

  // ----- encoding ------------------------------------------------------------------------------

  function BulkValues(arguments: seq<string>): (values: seq<Value>)
    ensures |values| == |arguments|
  {
    if arguments == [] then [] else [Value('$', arguments[0], [])] + BulkValues(arguments[1..])
  }

  function CommandValue(arguments: seq<string>): Value {
    Value('*', "", BulkValues(arguments))
  }

  /** The bytes of the arguments after the count line. */
  function EncodeArguments(arguments: seq<string>): string {
    EncodeAll(DefiniteAll(BulkValues(arguments)))
  }

  lemma EncodeArgumentsStep(argument: string, rest: seq<string>)
    ensures EncodeArguments([argument] + rest)
         == EncodeLine('$', Itoa(|argument|)) + (argument + CRLF) + EncodeArguments(rest)
  {
    hide Itoa, Encode, EncodeLine, Definite;
    var bulk := Value('$', argument, []);
    assert BulkValues([argument] + rest) == [bulk] + BulkValues(rest) by {
      assert ([argument] + rest)[1..] == rest;
    }
    assert DefiniteAll([bulk] + BulkValues(rest)) == [Definite(bulk)] + DefiniteAll(BulkValues(rest)) by {
      assert ([bulk] + BulkValues(rest))[1..] == BulkValues(rest);
    }
    var nodes := DefiniteAll(BulkValues(rest));
    assert EncodeAll([Definite(bulk)] + nodes) == Encode(Definite(bulk)) + EncodeAll(nodes) by {
      assert ([Definite(bulk)] + nodes)[1..] == nodes;
    }
    BulkBytes(argument);
  }

  lemma BulkBytes(argument: string)
    ensures Encode(Definite(Value('$', argument, []))) == EncodeLine('$', Itoa(|argument|)) + (argument + CRLF)
  {
    hide Itoa, EncodeLine;
    assert IsBulkKind('$') && !IsLineKind('$');
  }

  method EncodeCommand(arguments: seq<string>) returns (bytes: string)
    ensures bytes == Encode(Definite(CommandValue(arguments)))
  {
    hide Itoa, EncodeArguments, EncodeLine, Encode, Definite;
    bytes := EncodeLine('*', Itoa(|arguments|));
    EncodeWhole(arguments);
    assert arguments[0..] == arguments;
    for i := 0 to |arguments|
      invariant Encode(Definite(CommandValue(arguments))) == bytes + EncodeArguments(arguments[i..])
    {
      var argument := arguments[i];
      assert arguments[i..] == [argument] + arguments[i + 1..];
      EncodeArgumentsStep(argument, arguments[i + 1..]);
      bytes := bytes + (EncodeLine('$', Itoa(|argument|)) + (argument + CRLF));
    }
    assert bytes + EncodeArguments([]) == bytes by {
      EncodeNothing();
    }
  }

  lemma EncodeNothing()
    ensures EncodeArguments([]) == ""
  {
  }

  lemma EncodeWhole(arguments: seq<string>)
    ensures Encode(Definite(CommandValue(arguments))) == EncodeLine('*', Itoa(|arguments|)) + EncodeArguments(arguments)
  {
    hide Itoa, EncodeLine, EncodeAll, DefiniteAll, BulkValues;
    assert IsArrayKind('*') && !IsMapKind('*') && !IsLineKind('*') && !IsBulkKind('*');
    assert "" != "null";
  }

  lemma {:induction false} BulkValuesFacts(arguments: seq<string>)
    requires forall i :: 0 <= i < |arguments| ==> |arguments[i]| <= MAX_FRAME
    ensures PrintableAll(BulkValues(arguments)) && ValueDepthAll(BulkValues(arguments)) == 0
    ensures Texts(BulkValues(arguments)) == arguments
  {
    if arguments != [] {
      BulkValuesFacts(arguments[1..]);
      assert BulkValues(arguments)[1..] == BulkValues(arguments[1..]);
    }
  }

  lemma {:induction false} ArgumentsBelowFrame(arguments: seq<string>, i: nat)
    requires i < |arguments|
    ensures |arguments[i]| <= |EncodeAll(DefiniteAll(BulkValues(arguments)))|
  {
    assert BulkValues(arguments)[1..] == BulkValues(arguments[1..]);
    assert DefiniteAll(BulkValues(arguments))[1..] == DefiniteAll(BulkValues(arguments[1..]));
    if i > 0 {
      ArgumentsBelowFrame(arguments[1..], i - 1);
    }
  }

  /** An encoded command reads back as exactly its arguments. */
  lemma EncodedCommandReadsBack(arguments: seq<string>, suffix: string)
    requires 1 <= |arguments| <= MAX_COLLECTION
    requires |Encode(Definite(CommandValue(arguments)))| <= MAX_FRAME
    ensures var bytes := Encode(Definite(CommandValue(arguments)));
            && ReadValue(bytes + suffix) == Ok(Parsed(CommandValue(arguments), |bytes|))
            && CommandArguments(CommandValue(arguments)) == arguments
  {
    forall i | 0 <= i < |arguments| ensures |arguments[i]| <= MAX_FRAME {
      ArgumentsBelowFrame(arguments, i);
    }
    BulkValuesFacts(arguments);
    DefiniteFits(CommandValue(arguments), 0, 0);
    PrintThenRead(CommandValue(arguments), suffix);
  }

  // ----- requests ------------------------------------------------------------------------------

  function ErrorReply(message: string): string {
    "-ERR " + message + CRLF
  }

  function PinnedMessage(database: nat): string {
    "Portscope listener is pinned to Redis database " + Itoa(database)
  }

  /** What becomes of a request, and whether the client is authenticated afterwards. */
  function Inspect(request: Frame, options: Options, authenticated: bool): (Decision, bool) {
    var operation := Command(request.value);
    var arguments := CommandArguments(request.value);
    var redacted := operation == "AUTH" || (operation == "HELLO" && ContainsAuth(arguments));
    var item := Decision(operation, redacted, "", "");
    if operation == "AUTH" then
      match ValidateListenerAuth(arguments, options)
      case Err(syntax) => (item.(local := ErrorReply(syntax)), authenticated)
      case Ok(valid) =>
        if valid then (item.(local := OK_REPLY), true) else (item.(local := WRONG_PASS), authenticated)
    else if operation == "HELLO" then
      match HelloOf(arguments, options)
      case Err(syntax) => (item.(local := ErrorReply(syntax)), authenticated)
      case Ok(hello) =>
        if hello.suppliedAuth && !hello.valid then (item.(local := WRONG_PASS), authenticated)
        else if !authenticated && !hello.suppliedAuth then (item.(local := NO_AUTH), false)
        else (item.(forward := Encode(Definite(CommandValue(hello.rewritten)))), authenticated || hello.valid)
    else if !authenticated then (item.(local := NO_AUTH), false)
    else if operation == "SELECT" then
      if |arguments| != 2 then (item.(local := ErrorReply("wrong number of arguments for 'select' command")), true)
      else if Atoi(arguments[1]) != Some(options.database) then
        (item.(local := ErrorReply(PinnedMessage(options.database))), true)
      else (item.(local := OK_REPLY), true)
    else if operation == "RESET" then
      (item.(local := ErrorReply("RESET is disabled because Portscope owns the upstream authentication and database state")), true)
    else (item.(forward := request.raw), true)
  }

  method InspectRequest(request: Frame, options: Options, authenticated: bool) returns (item: Decision, next: bool)
    ensures (item, next) == Inspect(request, options, authenticated)
  {
    hide Encode, Definite, Atoi, Fields, Upper, HelloOf, Texts, Itoa, ValidateListenerAuth;
    var operation := Command(request.value);
    var arguments := CommandArguments(request.value);
    item := Decision(operation, false, "", "");
    if operation == "AUTH" || (operation == "HELLO" && ContainsAuth(arguments)) {
      item := item.(redacted := true);
    }
    if operation == "AUTH" {
      match ValidateListenerAuth(arguments, options) {
        case Err(syntax) => return item.(local := ErrorReply(syntax)), authenticated;
        case Ok(valid) =>
          if !valid {
            return item.(local := WRONG_PASS), authenticated;
          }
          return item.(local := OK_REPLY), true;
      }
    }
    if operation == "HELLO" {
      var rewritten, suppliedAuth, valid, syntax := InspectHello(arguments, options);
      SyntaxTexts(arguments, options);
      if syntax != "" {
        return item.(local := ErrorReply(syntax)), authenticated;
      }
      if suppliedAuth && !valid {
        return item.(local := WRONG_PASS), authenticated;
      }
      if !authenticated && !suppliedAuth {
        return item.(local := NO_AUTH), false;
      }
      var forward := EncodeCommand(rewritten);
      return item.(forward := forward), authenticated || valid;
    }
    if !authenticated {
      return item.(local := NO_AUTH), false;
    }
    if operation == "SELECT" {
      if |arguments| != 2 {
        return item.(local := ErrorReply("wrong number of arguments for 'select' command")), true;
      }
      if Atoi(arguments[1]) != Some(options.database) {
        return item.(local := ErrorReply(PinnedMessage(options.database))), true;
      }
      return item.(local := OK_REPLY), true;
    }
    if operation == "RESET" {
      return item.(local := ErrorReply("RESET is disabled because Portscope owns the upstream authentication and database state")), true;
    }
    return item.(forward := request.raw), true;
  }

  lemma SyntaxTexts(arguments: seq<string>, options: Options)
    requires |arguments| >= 1
    ensures HelloOf(arguments, options).Err? ==> HelloOf(arguments, options).error != ""
  {
    if |arguments| > 1 && HelloOf(arguments, options).Err? && Clauses(arguments, 2, false).Err? {
      ClauseErrors(arguments, 2, false);
    }
  }

  lemma {:induction false} ClauseErrors(arguments: seq<string>, index: nat, suppliedAuth: bool)
    requires index <= |arguments| && Clauses(arguments, index, suppliedAuth).Err?
    ensures Clauses(arguments, index, suppliedAuth).error == "syntax error"
    decreases |arguments| - index
  {
    if Upper(arguments[index]) == "AUTH" && !suppliedAuth && index + 2 < |arguments| {
      ClauseErrors(arguments, index + 3, true);
    } else if Upper(arguments[index]) == "SETNAME" && index + 1 < |arguments| {
      ClauseErrors(arguments, index + 2, suppliedAuth);
    }
  }

  // ----- what every decision keeps -------------------------------------------------------------

  /** The request shows the listener's own credentials. */
  predicate ShowsCredentials(request: Frame, options: Options) {
    var arguments := CommandArguments(request.value);
    options.listenerPassword != "" &&
    (|| (Command(request.value) == "AUTH" && |arguments| == 2
         && ExpectedUser(options) == "default" && arguments[1] == options.listenerPassword)
     || (Command(request.value) == "AUTH" && |arguments| == 3
         && arguments[1] == ExpectedUser(options) && arguments[2] == options.listenerPassword)
     || (Command(request.value) == "HELLO" && |arguments| > 2 && (arguments[1] == "2" || arguments[1] == "3")
         && Clauses(arguments, 2, false).Ok?
         && CredentialsOf(Clauses(arguments, 2, false).value)
            == Some(Auth(ExpectedUser(options), options.listenerPassword))))
  }

  /** Exactly one answer; nothing is forwarded unauthenticated; authentication is gained only by credentials and never lost. */
  lemma DecisionFacts(request: Frame, options: Options, authenticated: bool)
    requires request.raw != ""
    ensures var (item, next) := Inspect(request, options, authenticated);
            && (item.forward == "" <==> item.local != "")
            && (item.forward != "" ==> next)
            && (authenticated ==> next)
            && (!authenticated && next ==> ShowsCredentials(request, options))
  {
    hide Encode, Definite, Atoi, CommandArguments, Command, HelloOf, ValidateListenerAuth, ShowsCredentials, Itoa;
    CommandNeedsArguments(request.value);
    AcceptedCredentials(request, options);
  }

  lemma CommandNeedsArguments(v: Value)
    ensures Command(v) == "HELLO" ==> CommandArguments(v) != []
  {
  }

  lemma AcceptedCredentials(request: Frame, options: Options)
    ensures var arguments := CommandArguments(request.value);
            && (Command(request.value) == "AUTH" && ValidateListenerAuth(arguments, options) == Ok(true) ==>
                ShowsCredentials(request, options))
            && (Command(request.value) == "HELLO" && HelloOf(arguments, options).Ok? && HelloOf(arguments, options).value.valid ==>
                ShowsCredentials(request, options))
  {
    hide Fields, Upper, Texts;
  }

  /** A forwarded HELLO reads back, at the upstream, as a HELLO without credentials. */
  lemma ForwardedHelloHasNoCredentials(request: Frame, options: Options, authenticated: bool)
    requires Command(request.value) == "HELLO"
    requires Inspect(request, options, authenticated).0.forward != ""
    requires |Inspect(request, options, authenticated).0.forward| <= MAX_FRAME
    requires |CommandArguments(request.value)| <= MAX_COLLECTION
    ensures var forward := Inspect(request, options, authenticated).0.forward;
            && ReadValue(forward).Ok? && ReadValue(forward).value.next == |forward|
            && (var sent := CommandArguments(ReadValue(forward).value.result);
                && sent != [] && sent[0] == CommandArguments(request.value)[0]
                && HelloOf(sent, options) == Ok(Hello(sent, false, false)))
  {
    hide Encode, Definite, ReadValue, Clauses;
    var arguments := CommandArguments(request.value);
    var hello := HelloOf(arguments, options).value;
    RewrittenHelloIsClean(arguments, options);
    if |arguments| > 1 {
      KeptLength(arguments, 2, false);
    }
    EncodedCommandReadsBack(hello.rewritten, "");
    var forward := Inspect(request, options, authenticated).0.forward;
    assert forward + "" == forward;
  }

  /** A request as the reader delivers it: its bytes are one frame, which denotes its value. */
  predicate AsRead(request: Frame) {
    ReadValue(request.raw) == Ok(Parsed(request.value, |request.raw|))
  }

  /**
   Whatever is forwarded, the upstream reads one command that neither authenticates nor changes the
   database nor resets the session; a HELLO among them has no credentials.
   */
  lemma SessionCommandsStayLocal(request: Frame, options: Options, authenticated: bool)
    requires AsRead(request) && Inspect(request, options, authenticated).0.forward != ""
    requires Command(request.value) == "HELLO" ==>
      && |Inspect(request, options, authenticated).0.forward| <= MAX_FRAME
      && |CommandArguments(request.value)| <= MAX_COLLECTION
    ensures var forward := Inspect(request, options, authenticated).0.forward;
            && ReadValue(forward).Ok? && ReadValue(forward).value.next == |forward|
            && (var v := ReadValue(forward).value.result;
                && Command(v) != "AUTH" && Command(v) != "SELECT" && Command(v) != "RESET"
                && (Command(v) == "HELLO" ==>
                    HelloOf(CommandArguments(v), options) == Ok(Hello(CommandArguments(v), false, false))))
  {
    hide Encode, Definite, ValidateListenerAuth, HelloOf, Atoi, CommandArguments, Fields, Upper, ReadValue;
    if Command(request.value) == "HELLO" {
      ForwardedHelloHasNoCredentials(request, options, authenticated);
    }
  }

  lemma {:induction false} KeptLength(arguments: seq<string>, index: nat, suppliedAuth: bool)
    requires index <= |arguments| && Clauses(arguments, index, suppliedAuth).Ok?
    ensures |Kept(Clauses(arguments, index, suppliedAuth).value)| <= |arguments| - index
    decreases |arguments| - index
  {
    if index < |arguments| {
      if Upper(arguments[index]) == "AUTH" {
        KeptLength(arguments, index + 3, true);
      } else {
        KeptLength(arguments, index + 2, suppliedAuth);
      }
    }
  }

  // ----- whole conversations -------------------------------------------------------------------

  function AuthAfter(requests: seq<Frame>, options: Options): bool {
    if requests == [] then options.listenerPassword == ""
    else
      var last := |requests| - 1;
      Inspect(requests[last], options, AuthAfter(requests[..last], options)).1
  }

  function DecisionAt(requests: seq<Frame>, options: Options, i: nat): Decision
    requires i < |requests|
  {
    Inspect(requests[i], options, AuthAfter(requests[..i], options)).0
  }

  /** With a listener password, no request is forwarded before one that shows the credentials. */
  lemma {:induction false} NothingForwardedBeforeCredentials(requests: seq<Frame>, options: Options, i: nat)
    requires options.listenerPassword != "" && i < |requests|
    requires forall k :: 0 <= k < |requests| ==> requests[k].raw != ""
    ensures DecisionAt(requests, options, i).forward != "" ==> exists k :: 0 <= k <= i && ShowsCredentials(requests[k], options)
  {
    hide Inspect, ShowsCredentials;
    if DecisionAt(requests, options, i).forward == "" {
      return;
    }
    DecisionFacts(requests[i], options, AuthAfter(requests[..i], options));
    assert requests[..i + 1][..i] == requests[..i];
    var k := CredentialsShown(requests[..i + 1], options);
  }

  lemma {:induction false} CredentialsShown(requests: seq<Frame>, options: Options) returns (k: nat)
    requires options.listenerPassword != "" && AuthAfter(requests, options)
    requires forall i :: 0 <= i < |requests| ==> requests[i].raw != ""
    ensures k < |requests| && ShowsCredentials(requests[k], options)
  {
    var last := |requests| - 1;
    if AuthAfter(requests[..last], options) {
      k := CredentialsShown(requests[..last], options);
    } else {
      DecisionFacts(requests[last], options, false);
      k := last;
    }
  }
}
