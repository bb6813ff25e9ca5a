/**
 SCRAM (RFC 5802 sections 3 and 5.1), both ends: the client that logs in upstream and the server
 that checks a listener's client. Hash, HMAC, MD5, base64 and password preparation are parameters.
 */
module Scram {
  import opened Wrappers
  import opened Decimal
  import opened ScramText

  datatype Algorithm = Sha1 | Sha256 {
    function Size(): nat {
      if this == Sha1 then 20 else 32
    }
  }

  function Select(mechanism: string): Option<Algorithm> {
    if mechanism == "SCRAM-SHA-256" then Some(Sha256)
    else if mechanism == "SCRAM-SHA-1" then Some(Sha1)
    else None
  }

  /** The libraries the exchange is built on. */
  datatype Primitives = Primitives(
    hmac: (Algorithm, seq<bv8>, seq<bv8>) -> seq<bv8>,
    digest: (Algorithm, seq<bv8>) -> seq<bv8>,
    md5Hex: string -> string,
    opaqueString: string -> Option<string>,
    encode: seq<bv8> -> string,
    decode: string -> Option<seq<bv8>>)

  ghost predicate FixedSize(k: Primitives) {
    && (forall a, key, data :: |k.hmac(a, key, data)| == a.Size())
    && (forall a, data :: |k.digest(a, data)| == a.Size())
  }

  ghost predicate Base64(k: Primitives) {
    && (forall data :: k.decode(k.encode(data)) == Some(data))
    && (forall data :: ',' !in k.encode(data))
    && (forall data :: k.encode(data) == "" <==> data == [])
  }

  ghost predicate Lawful(k: Primitives) {
    FixedSize(k) && Base64(k)
  }

  /** The bytes of a text. */
  function Raw(text: string): seq<bv8> {
    seq(|text|, i requires 0 <= i < |text| => (text[i] as int % 256) as bv8)
  }

  function PreparePassword(k: Primitives, algorithm: Algorithm, username: string, password: string): Option<string> {
    if algorithm == Sha1 then Some(k.md5Hex(username + ":mongo:" + password)) else k.opaqueString(password)
  }

  // ----- exclusive or --------------------------------------------------------------------------

  function Xor(left: seq<bv8>, right: seq<bv8>): (r: seq<bv8>)
    requires |left| <= |right|
    ensures |r| == |left|
  {
    seq(|left|, i requires 0 <= i < |left| => left[i] ^ right[i])
  }

  method XorBytes(left: seq<bv8>, right: seq<bv8>) returns (result: array<bv8>)
    requires |left| <= |right|
    ensures fresh(result) && result[..] == Xor(left, right)
  {
    result := new bv8[|left|];
    for i := 0 to |left|
      invariant forall j :: 0 <= j < i ==> result[j] == left[j] ^ right[j]
    {
      result[i] := left[i] ^ right[i];
    }
  }

  lemma XorBitsCancel(a: bv8, b: bv8)
    ensures (a ^ b) ^ b == a
  {
  }

  lemma XorCancels(a: seq<bv8>, b: seq<bv8>)
    requires |a| == |b|
    ensures Xor(Xor(a, b), b) == a
  {
    forall i | 0 <= i < |a|
      ensures Xor(Xor(a, b), b)[i] == a[i]
    {
      XorBitsCancel(a[i], b[i]);
    }
  }

  // ----- key derivation ------------------------------------------------------------------------

  /** INT(i) of RFC 5802 section 2.2: four octets, most significant first. */
  function Octets(block: nat): seq<bv8> {
    [(block / 0x100_0000 % 256) as bv8, (block / 0x1_0000 % 256) as bv8, (block / 0x100 % 256) as bv8, (block % 256) as bv8]
  }

  /** U1 .. Uc of RFC 5802 section 2.2, counted from zero. */
  function U(k: Primitives, a: Algorithm, password: seq<bv8>, seed: seq<bv8>, n: nat): seq<bv8> {
    k.hmac(a, password, if n == 0 then seed else U(k, a, password, seed, n - 1))
  }

  /** U1 XOR .. XOR Uc, for c = n + 1. */
  function XorOfU(k: Primitives, a: Algorithm, password: seq<bv8>, seed: seq<bv8>, n: nat): (r: seq<bv8>)
    requires FixedSize(k)
    ensures |r| == a.Size()
  {
    if n == 0 then U(k, a, password, seed, 0)
    else Xor(XorOfU(k, a, password, seed, n - 1), U(k, a, password, seed, n))
  }

  /** Hi(str, salt, i) of RFC 5802 section 2.2. */
  function Hi(k: Primitives, a: Algorithm, password: seq<bv8>, salt: seq<bv8>, iterations: nat): (r: seq<bv8>)
    requires FixedSize(k) && iterations > 0
    ensures |r| == a.Size()
  {
    XorOfU(k, a, password, salt + Octets(1), iterations - 1)
  }

  /** The first blocks of derived key; a count below one is read as one. */
  function Blocks(k: Primitives, a: Algorithm, password: seq<bv8>, salt: seq<bv8>, iterations: int,
                  blocks: nat): (r: seq<bv8>)
    requires FixedSize(k)
    ensures |r| == blocks * a.Size()
  {
    if blocks == 0 then []
    else
      Blocks(k, a, password, salt, iterations, blocks - 1)
      + XorOfU(k, a, password, salt + Octets(blocks), if iterations > 0 then iterations - 1 else 0)
  }

  function BlockCount(a: Algorithm, length: nat): (blocks: nat)
    ensures length <= blocks * a.Size()
  {
    (length + a.Size() - 1) / a.Size()
  }

  function DerivedKey(k: Primitives, a: Algorithm, password: seq<bv8>, salt: seq<bv8>, iterations: int,
                      length: nat): seq<bv8>
    requires FixedSize(k)
  {
    Blocks(k, a, password, salt, iterations, BlockCount(a, length))[..length]
  }

  /** One block: the running value and what is combined into. */
  method DeriveBlock(k: Primitives, a: Algorithm, password: seq<bv8>, seed: seq<bv8>,
                     iterations: int) returns (combined: array<bv8>)
    requires FixedSize(k)
    ensures fresh(combined)
    ensures combined[..] == XorOfU(k, a, password, seed, if iterations > 0 then iterations - 1 else 0)
  {
    var current := k.hmac(a, password, seed);
    combined := new bv8[|current|](i requires 0 <= i < |current| => current[i]);
    assert combined[..] == current;
    var iteration := 1;
    while iteration < iterations
      invariant 1 <= iteration && (iterations >= 1 ==> iteration <= iterations) && (iterations < 1 ==> iteration == 1)
      invariant combined.Length == a.Size()
      invariant current == U(k, a, password, seed, iteration - 1)
      invariant combined[..] == XorOfU(k, a, password, seed, iteration - 1)
    {
      current := k.hmac(a, password, current);
      CombineInto(combined, current);
      iteration := iteration + 1;
    }
  }

  method CombineInto(combined: array<bv8>, current: seq<bv8>)
    requires combined.Length <= |current|
    modifies combined
    ensures combined[..] == Xor(old(combined[..]), current)
  {
    for i := 0 to combined.Length
      invariant forall j :: 0 <= j < i ==> combined[j] == old(combined[j]) ^ current[j]
      invariant forall j :: i <= j < combined.Length ==> combined[j] == old(combined[j])
    {
      combined[i] := combined[i] ^ current[i];
    }
  }

  method Pbkdf2Key(k: Primitives, a: Algorithm, password: seq<bv8>, salt: seq<bv8>, iterations: int, length: nat)
    returns (key: seq<bv8>)
    requires FixedSize(k)
    ensures key == DerivedKey(k, a, password, salt, iterations, length)
  {
    var blocks := BlockCount(a, length);
    var result := [];
    for block := 1 to blocks + 1
      invariant result == Blocks(k, a, password, salt, iterations, block - 1)
    {
      var combined := DeriveBlock(k, a, password, salt + Octets(block), iterations);
      result := result + combined[..];
    }
    return result[..length];
  }

  /** With the digest's own size the derived key is the RFC's Hi. */
  lemma DerivedKeyIsHi(k: Primitives, a: Algorithm, password: seq<bv8>, salt: seq<bv8>, iterations: nat)
    requires FixedSize(k) && iterations > 0
    ensures DerivedKey(k, a, password, salt, iterations, a.Size()) == Hi(k, a, password, salt, iterations)
  {
    assert BlockCount(a, a.Size()) == 1;
    assert Blocks(k, a, password, salt, iterations, 1) == [] + Hi(k, a, password, salt, iterations);
  }

  // ----- what both ends compute ----------------------------------------------------------------

  function ClientKey(k: Primitives, a: Algorithm, salted: seq<bv8>): seq<bv8> {
    k.hmac(a, salted, Raw("Client Key"))
  }

  function ClientSignature(k: Primitives, a: Algorithm, salted: seq<bv8>, authMessage: string): seq<bv8> {
    k.hmac(a, k.digest(a, ClientKey(k, a, salted)), Raw(authMessage))
  }

  function ServerSignature(k: Primitives, a: Algorithm, salted: seq<bv8>, authMessage: string): seq<bv8> {
    k.hmac(a, k.hmac(a, salted, Raw("Server Key")), Raw(authMessage))
  }

  function Proof(k: Primitives, a: Algorithm, salted: seq<bv8>, authMessage: string): seq<bv8>
    requires FixedSize(k)
  {
    Xor(ClientKey(k, a, salted), ClientSignature(k, a, salted, authMessage))
  }

  // ----- the client ----------------------------------------------------------------------------

  datatype ScramError =
    UnsupportedMechanism | InvalidAttributes | NonceNotExtended | InvalidSalt | UnsafeIterations | InvalidPassword
  | ServerRejected | WrongSignature | ChannelBinding | InvalidCredentials | ShortNonce | Mismatch | InvalidProof | MissingProof

  function FirstBare(username: string, nonce: string): string {
    "n=" + Escape(username) + ",r=" + nonce
  }

  datatype ClientReply = ClientReply(message: string, authMessage: string, serverSignature: seq<bv8>)

  function SafeIterations(text: string): Option<nat> {
    var parsed := Atoi(text);
    if parsed.None? || parsed.value < 4096 || parsed.value > 10_000_000 then None else Some(parsed.value)
  }

  /** What the client makes of the server's first message. */
  function Reply(k: Primitives, a: Algorithm, username: string, password: string, nonce: string, serverFirst: string):
    Result<ClientReply, ScramError>
    requires FixedSize(k)
  {
    var attributes := Attributes(serverFirst);
    if attributes.None? then Err(InvalidAttributes) else
    var serverNonce := Get(attributes.value, 'r');
    if !(nonce <= serverNonce) || |serverNonce| == |nonce| then Err(NonceNotExtended) else
    var salt := k.decode(Get(attributes.value, 's'));
    if salt.None? then Err(InvalidSalt) else
    var iterations := SafeIterations(Get(attributes.value, 'i'));
    if iterations.None? then Err(UnsafeIterations) else
    var prepared := PreparePassword(k, a, username, password);
    if prepared.None? then Err(InvalidPassword) else
    var salted := Hi(k, a, Raw(prepared.value), salt.value, iterations.value);
    var withoutProof := "c=biws,r=" + serverNonce;
    var authMessage := FirstBare(username, nonce) + "," + serverFirst + "," + withoutProof;
    Ok(ClientReply(withoutProof + ",p=" + k.encode(Proof(k, a, salted, authMessage)), authMessage,
                   ServerSignature(k, a, salted, authMessage)))
  }

  /** The client accepts the server's last message. */
  function Check(k: Primitives, signature: seq<bv8>, serverFinal: string): Result<(), ScramError> {
    var attributes := Attributes(serverFinal);
    if attributes.None? then Err(InvalidAttributes)
    else if Get(attributes.value, 'e') != "" then Err(ServerRejected)
    else if k.decode(Get(attributes.value, 'v')) != Some(signature) then Err(WrongSignature)
    else Ok(())
  }

  class Client {
    const k: Primitives
    const algorithm: Algorithm
    const username: string
    const password: string
    const nonce: string
    const clientFirstBare: string
    var authMessage: string
    var serverSignature: seq<bv8>

    ghost predicate Valid() {
      FixedSize(k) && clientFirstBare == FirstBare(username, nonce)
    }

    constructor (k: Primitives, algorithm: Algorithm, username: string, password: string, nonce: string)
      requires FixedSize(k)
      ensures Valid() && this.k == k && this.algorithm == algorithm
      ensures this.username == username && this.password == password && this.nonce == nonce
    {
      this.k, this.algorithm := k, algorithm;
      this.username, this.password, this.nonce := username, password, nonce;
      clientFirstBare := "n=" + Escape(username) + ",r=" + nonce;
      authMessage, serverSignature := "", [];
    }

    method First() returns (message: string)
      requires Valid()
      ensures message == "n,," + FirstBare(username, nonce)
    {
      return "n,," + clientFirstBare;
    }

    method Final(serverFirst: string) returns (r: Result<string, ScramError>)
      requires Valid()
      modifies this
      ensures var reply := Reply(k, algorithm, username, password, nonce, serverFirst);
              match reply
              case Ok(value) => r == Ok(value.message) && authMessage == value.authMessage && serverSignature == value.serverSignature
              case Err(error) => r == Err(error) && authMessage == old(authMessage) && serverSignature == old(serverSignature)
    {
      var parsed := ParseAttributes(serverFirst);
      if parsed.None? {
        return Err(InvalidAttributes);
      }
      var attributes := parsed.value;
      var serverNonce, saltText, iterationsText := Get(attributes, 'r'), Get(attributes, 's'), Get(attributes, 'i');
      if !(nonce <= serverNonce) || |serverNonce| == |nonce| {
        return Err(NonceNotExtended);
      }
      var salt := k.decode(saltText);
      if salt.None? {
        return Err(InvalidSalt);
      }
      var iterations := Atoi(iterationsText);
      if iterations.None? || iterations.value < 4096 || iterations.value > 10_000_000 {
        return Err(UnsafeIterations);
      }
      var prepared := PreparePassword(k, algorithm, username, password);
      if prepared.None? {
        return Err(InvalidPassword);
      }
      var saltedPassword := Pbkdf2Key(k, algorithm, Raw(prepared.value), salt.value, iterations.value, algorithm.Size());
      DerivedKeyIsHi(k, algorithm, Raw(prepared.value), salt.value, iterations.value);
      var withoutProof := "c=biws,r=" + serverNonce;
      authMessage := clientFirstBare + "," + serverFirst + "," + withoutProof;
      var clientKey := k.hmac(algorithm, saltedPassword, Raw("Client Key"));
      var storedKey := k.digest(algorithm, clientKey);
      var clientSignature := k.hmac(algorithm, storedKey, Raw(authMessage));
      var proof := XorBytes(clientKey, clientSignature);
      var serverKey := k.hmac(algorithm, saltedPassword, Raw("Server Key"));
      serverSignature := k.hmac(algorithm, serverKey, Raw(authMessage));
      return Ok(withoutProof + ",p=" + k.encode(proof[..]));
    }

    method Verify(serverFinal: string) returns (r: Result<(), ScramError>)
      ensures r == Check(k, serverSignature, serverFinal)
    {
      var parsed := ParseAttributes(serverFinal);
      if parsed.None? {
        return Err(InvalidAttributes);
      }
      if Get(parsed.value, 'e') != "" {
        return Err(ServerRejected);
      }
      var actual := k.decode(Get(parsed.value, 'v'));
      if actual.None? || actual.value != serverSignature {
        return Err(WrongSignature);
      }
      return Ok(());
    }
  }

  // ----- the server ----------------------------------------------------------------------------

  const ITERATIONS: nat := 15000

  datatype Server = Server(
    algorithm: Algorithm,
    expectedUser: string,
    password: string,
    clientFirstBare: string,
    serverFirst: string,
    nonce: string,
    salt: seq<bv8>,
    iterations: nat)

  function ServerFirst(k: Primitives, nonce: string, salt: seq<bv8>): string {
    "r=" + nonce + ",s=" + k.encode(salt) + ",i=" + Itoa(ITERATIONS)
  }

  /** The random nonce and salt are parameters; drawing them cannot fail here. */
  function NewServer(k: Primitives, mechanism: string, expectedUser: string, password: string, clientFirst: string,
                     serverNonce: string, salt: seq<bv8>): Result<Server, ScramError>
  {
    var selected := Select(mechanism);
    if selected.None? then Err(UnsupportedMechanism)
    else if !("n,," <= clientFirst) && !("y,," <= clientFirst) then Err(ChannelBinding) else
    var bare := clientFirst[3..];
    var attributes := Attributes(bare);
    if attributes.None? then Err(InvalidAttributes) else
    var username := Unescape(Get(attributes.value, 'n'));
    if username != Some(expectedUser) then Err(InvalidCredentials) else
    var clientNonce := Get(attributes.value, 'r');
    if |clientNonce| < 8 then Err(ShortNonce) else
    var nonce := clientNonce + serverNonce;
    Ok(Server(selected.value, expectedUser, password, bare, ServerFirst(k, nonce, salt), nonce, salt, ITERATIONS))
  }

  /** What the server signs over, given the client's last message. */
  function AuthMessage(server: Server, clientFinal: string, proofIndex: int): string
    requires 0 <= proofIndex <= |clientFinal|
  {
    server.clientFirstBare + "," + server.serverFirst + "," + clientFinal[..proofIndex]
  }

  function SignedText(server: Server, clientFinal: string): Option<string> {
    var proofIndex := LastIndex(clientFinal, ",p=");
    if proofIndex < 0 then None else Some(AuthMessage(server, clientFinal, proofIndex))
  }

  function ServerSalted(k: Primitives, server: Server): Option<seq<bv8>>
    requires FixedSize(k) && server.iterations > 0
  {
    var prepared := PreparePassword(k, server.algorithm, server.expectedUser, server.password);
    if prepared.None? then None
    else Some(Hi(k, server.algorithm, Raw(prepared.value), server.salt, server.iterations))
  }

  function Answer(k: Primitives, server: Server, clientFinal: string): Result<string, ScramError>
    requires FixedSize(k) && server.iterations > 0
  {
    var a := server.algorithm;
    var attributes := Attributes(clientFinal);
    if attributes.None? then Err(InvalidAttributes)
    else if Get(attributes.value, 'c') != "biws" || Get(attributes.value, 'r') != server.nonce then Err(Mismatch) else
    var proof := k.decode(Get(attributes.value, 'p'));
    if proof.None? || |proof.value| != a.Size() then Err(InvalidProof) else
    var signed := SignedText(server, clientFinal);
    if signed.None? then Err(MissingProof) else
    var authMessage := signed.value;
    var salted := ServerSalted(k, server);
    if salted.None? then Err(InvalidPassword)
    else if k.digest(a, Xor(proof.value, ClientSignature(k, a, salted.value, authMessage)))
            != k.digest(a, ClientKey(k, a, salted.value)) then Err(InvalidCredentials)
    else Ok("v=" + k.encode(ServerSignature(k, a, salted.value, authMessage)))
  }

  method Finish(k: Primitives, server: Server, clientFinal: string) returns (r: Result<string, ScramError>)
    requires FixedSize(k) && server.iterations > 0
    ensures r == Answer(k, server, clientFinal)
  {
    var a := server.algorithm;
    var parsed := ParseAttributes(clientFinal);
    if parsed.None? {
      return Err(InvalidAttributes);
    }
    var attributes := parsed.value;
    if Get(attributes, 'c') != "biws" || Get(attributes, 'r') != server.nonce {
      return Err(Mismatch);
    }
    var proof := k.decode(Get(attributes, 'p'));
    if proof.None? || |proof.value| != a.Size() {
      return Err(InvalidProof);
    }
    var proofIndex := LastIndex(clientFinal, ",p=");
    if proofIndex < 0 {
      return Err(MissingProof);
    }
    var authMessage := server.clientFirstBare + "," + server.serverFirst + "," + clientFinal[..proofIndex];
    var prepared := PreparePassword(k, a, server.expectedUser, server.password);
    if prepared.None? {
      return Err(InvalidPassword);
    }
    var saltedPassword := Pbkdf2Key(k, a, Raw(prepared.value), server.salt, server.iterations, a.Size());
    DerivedKeyIsHi(k, a, Raw(prepared.value), server.salt, server.iterations);
    var clientKey := k.hmac(a, saltedPassword, Raw("Client Key"));
    var storedKey := k.digest(a, clientKey);
    var clientSignature := k.hmac(a, storedKey, Raw(authMessage));
    var recoveredKey := XorBytes(proof.value, clientSignature);
    if k.digest(a, recoveredKey[..]) != storedKey {
      return Err(InvalidCredentials);
    }
    var serverKey := k.hmac(a, saltedPassword, Raw("Server Key"));
    var signature := k.hmac(a, serverKey, Raw(authMessage));
    return Ok("v=" + k.encode(signature));
  }

  // ----- the exchange --------------------------------------------------------------------------

  lemma FirstBareReads(username: string, nonce: string)
    requires username != "" && nonce != "" && ',' !in nonce
    ensures Attributes(FirstBare(username, nonce)) == Some(map['n' := Escape(username), 'r' := nonce])
  {
    hide Attributes;
    UnescapeEscape(username);
    var n, r := Attribute('n', Escape(username)), Attribute('r', nonce);
    assert FirstBare(username, nonce) == PrintOne(n) + "," + PrintOne(r);
    ReadPair(n, r);
  }

  /** An empty user name or nonce leaves an attribute too short to be read. */
  lemma FirstBareUnreadable(username: string, nonce: string)
    requires ',' !in nonce && (username == "" || nonce == "")
    ensures Attributes(FirstBare(username, nonce)).None?
  {
    UnescapeEscape(username);
    ShortPair("n=" + Escape(username), "r=" + nonce);
    assert ("n=" + Escape(username)) + "," + ("r=" + nonce) == FirstBare(username, nonce);
  }

  /** The server a client's first message opens. */
  function Opened(k: Primitives, a: Algorithm, username: string, password: string, clientNonce: string,
                  serverNonce: string, salt: seq<bv8>): Server
  {
    var nonce := clientNonce + serverNonce;
    Server(a, username, password, FirstBare(username, clientNonce), ServerFirst(k, nonce, salt), nonce, salt, ITERATIONS)
  }

  /**
   A first message for `user`: a gs2 header without channel binding, then attributes with distinct keys and
   non-empty values, of which `n` is the escaped user (absent for an empty one) and `r` a nonce of eight or more.
   */
  predicate IsFirstFor(text: string, attributes: seq<Attribute>, user: string, nonce: string) {
    && attributes != [] && AllProper(attributes) && DistinctKeys(attributes)
    && (text == "n,," + Print(attributes) || text == "y,," + Print(attributes))
    && (if user == "" then forall a <- attributes :: a.key != 'n' else Attribute('n', Escape(user)) in attributes)
    && Attribute('r', nonce) in attributes && |nonce| >= 8
  }

  lemma FirstOfAttributes(k: Primitives, mechanism: string, expectedUser: string, password: string, text: string,
                          attributes: seq<Attribute>, serverNonce: string, salt: seq<bv8>)
    requires attributes != [] && AllProper(attributes) && DistinctKeys(attributes)
    requires text == "n,," + Print(attributes) || text == "y,," + Print(attributes)
    ensures var r := NewServer(k, mechanism, expectedUser, password, text, serverNonce, salt);
            var nonce := Get(Bindings(attributes, map[]), 'r');
            && (r.Ok? <==> Select(mechanism).Some? && IsFirstFor(text, attributes, expectedUser, nonce))
            && (r.Ok? ==> r.value.clientFirstBare == Print(attributes) && r.value.nonce == nonce + serverNonce)
  {
    hide Attributes, Unescape, ServerFirst, Print, AllProper, DistinctKeys, Bindings, Escape, Select;
    assert text[3..] == Print(attributes);
    ReadPrinted(attributes);
    var bound := Bindings(attributes, map[]);
    GetIff(attributes, 'r', Get(bound, 'r'));
    GetIff(attributes, 'n', Escape(expectedUser));
    UnescapeEscape(expectedUser);
    UnescapeIff(Get(bound, 'n'), expectedUser);
    ValuesHaveNoComma(attributes, 'n');
  }

  lemma ValuesHaveNoComma(attributes: seq<Attribute>, key: char)
    requires AllProper(attributes) && DistinctKeys(attributes)
    ensures ',' !in Get(Bindings(attributes, map[]), key)
  {
    hide Bindings;
    var value := Get(Bindings(attributes, map[]), key);
    GetIff(attributes, key, value);
    assert forall a <- attributes :: Proper(a);
  }

  /** Whatever text arrives, the server takes it exactly when it is a first message for its own user. */
  lemma AnyFirstAcceptedIff(k: Primitives, mechanism: string, expectedUser: string, password: string, text: string,
                            serverNonce: string, salt: seq<bv8>)
    ensures var r := NewServer(k, mechanism, expectedUser, password, text, serverNonce, salt);
            && (r.Ok? <==> Select(mechanism).Some? && exists attributes, nonce :: IsFirstFor(text, attributes, expectedUser, nonce))
            && (forall attributes, nonce :: r.Ok? && IsFirstFor(text, attributes, expectedUser, nonce) ==>
                r.value.clientFirstBare == Print(attributes) && r.value.nonce == nonce + serverNonce)
  {
    hide Attributes, Unescape, ServerFirst, Print, AllProper, DistinctKeys, Bindings, Escape, Select;
    var r := NewServer(k, mechanism, expectedUser, password, text, serverNonce, salt);
    if r.Ok? {
      AttributesIff(text[3..]);
      var attributes :| IsPrintOf(text[3..], attributes);
      assert text == text[..3] + text[3..];
      FirstOfAttributes(k, mechanism, expectedUser, password, text, attributes, serverNonce, salt);
    }
    forall attributes, nonce | IsFirstFor(text, attributes, expectedUser, nonce)
      ensures nonce == Get(Bindings(attributes, map[]), 'r')
      ensures Select(mechanism).Some? ==> r.Ok? && r.value.clientFirstBare == Print(attributes) && r.value.nonce == nonce + serverNonce
    {
      GetIff(attributes, 'r', nonce);
      FirstOfAttributes(k, mechanism, expectedUser, password, text, attributes, serverNonce, salt);
    }
  }

  /** The server takes this client's first message exactly for its own user and a nonce that is long enough. */
  lemma FirstAcceptedIff(k: Primitives, mechanism: string, expectedUser: string, password: string,
                         username: string, nonce: string, serverNonce: string, salt: seq<bv8>)
    requires ',' !in nonce
    ensures var r := NewServer(k, mechanism, expectedUser, password, "n,," + FirstBare(username, nonce), serverNonce, salt);
            && (r.Ok? <==> Select(mechanism).Some? && username != "" && username == expectedUser && |nonce| >= 8)
            && (r.Ok? ==> r.value == Opened(k, Select(mechanism).value, username, password, nonce, serverNonce, salt))
  {
    hide Attributes, Unescape, FirstBare, ServerFirst;
    var first := "n,," + FirstBare(username, nonce);
    assert first[3..] == FirstBare(username, nonce);
    if username == "" || nonce == "" {
      FirstBareUnreadable(username, nonce);
    } else {
      FirstBareReads(username, nonce);
      UnescapeEscape(username);
    }
  }

  lemma ServerFirstReads(k: Primitives, nonce: string, salt: seq<bv8>)
    requires Base64(k) && nonce != "" && ',' !in nonce && salt != []
    ensures Attributes(ServerFirst(k, nonce, salt)) == Some(map['r' := nonce, 's' := k.encode(salt), 'i' := Itoa(ITERATIONS)])
  {
    hide Attributes, Itoa;
    ItoaDigits(ITERATIONS);
    var r, s, i := Attribute('r', nonce), Attribute('s', k.encode(salt)), Attribute('i', Itoa(ITERATIONS));
    assert ServerFirst(k, nonce, salt) == PrintOne(r) + "," + PrintOne(s) + "," + PrintOne(i);
    ReadTriple(r, s, i);
  }

  lemma ClientFinalReads(k: Primitives, nonce: string, proof: seq<bv8>)
    requires Base64(k) && nonce != "" && ',' !in nonce && proof != []
    ensures var message := "c=biws,r=" + nonce + ",p=" + k.encode(proof);
            && Attributes(message) == Some(map['c' := "biws", 'r' := nonce, 'p' := k.encode(proof)])
            && LastIndex(message, ",p=") == |"c=biws,r=" + nonce|
  {
    hide Attributes, LastIndex;
    var c, r, p := Attribute('c', "biws"), Attribute('r', nonce), Attribute('p', k.encode(proof));
    assert "c=biws,r=" + nonce + ",p=" + k.encode(proof) == PrintOne(c) + "," + PrintOne(r) + "," + PrintOne(p);
    ReadTriple(c, r, p);
    LastProof("c=biws,r=" + nonce, k.encode(proof));
  }

  lemma ServerFinalReads(k: Primitives, signature: seq<bv8>)
    requires Base64(k) && signature != []
    ensures Attributes("v=" + k.encode(signature)) == Some(map['v' := k.encode(signature)])
  {
    hide Attributes;
    var v := Attribute('v', k.encode(signature));
    assert PrintOne(v) == "v=" + k.encode(signature);
    ReadOne(v);
  }

  /** The client's answer to that server's first message, whatever the two passwords. */
  lemma ClientReplies(k: Primitives, a: Algorithm, username: string, password: string, serverPassword: string,
                      clientNonce: string, serverNonce: string, salt: seq<bv8>)
    requires Lawful(k) && username != "" && ',' !in clientNonce && ',' !in serverNonce && serverNonce != "" && salt != []
    requires PreparePassword(k, a, username, password).Some?
    ensures var server := Opened(k, a, username, serverPassword, clientNonce, serverNonce, salt);
            var r := Reply(k, a, username, password, clientNonce, server.serverFirst);
            var salted := Hi(k, a, Raw(PreparePassword(k, a, username, password).value), salt, ITERATIONS);
            && r.Ok?
            && r.value.authMessage == server.clientFirstBare + "," + server.serverFirst + "," + ("c=biws,r=" + server.nonce)
            && r.value.message == "c=biws,r=" + server.nonce + ",p=" + k.encode(Proof(k, a, salted, r.value.authMessage))
            && r.value.serverSignature == ServerSignature(k, a, salted, r.value.authMessage)
  {
    hide Attributes, Itoa, Atoi, Hi, ServerFirst, FirstBare, Raw;
    ServerFirstReads(k, clientNonce + serverNonce, salt);
    AtoiItoa(ITERATIONS);
  }

  /**
   A client that answers this server, with its own password or another: the server signs over the
   same text, and accepts exactly when the key it recovers hashes to the stored one.
   */
  lemma AnswerIff(k: Primitives, a: Algorithm, username: string, password: string, serverPassword: string,
                  clientNonce: string, serverNonce: string, salt: seq<bv8>)
    requires Lawful(k) && username != "" && ',' !in clientNonce && ',' !in serverNonce && serverNonce != "" && salt != []
    requires PreparePassword(k, a, username, password).Some? && PreparePassword(k, a, username, serverPassword).Some?
    ensures var server := Opened(k, a, username, serverPassword, clientNonce, serverNonce, salt);
            var r := Reply(k, a, username, password, clientNonce, server.serverFirst);
            var salted := Hi(k, a, Raw(PreparePassword(k, a, username, password).value), salt, ITERATIONS);
            var expected := ServerSalted(k, server).value;
            && r.Ok?
            && SignedText(server, r.value.message) == Some(r.value.authMessage)
            && (Answer(k, server, r.value.message).Ok? <==>
                k.digest(a, Xor(Proof(k, a, salted, r.value.authMessage), ClientSignature(k, a, expected, r.value.authMessage)))
                == k.digest(a, ClientKey(k, a, expected)))
            && (Answer(k, server, r.value.message).Ok? ==>
                Answer(k, server, r.value.message).value == "v=" + k.encode(ServerSignature(k, a, expected, r.value.authMessage)))
  {
    hide Attributes, LastIndex, Hi, ServerFirst, FirstBare, Raw, Reply;
    ClientReplies(k, a, username, password, serverPassword, clientNonce, serverNonce, salt);
    var server := Opened(k, a, username, serverPassword, clientNonce, serverNonce, salt);
    var reply := Reply(k, a, username, password, clientNonce, server.serverFirst).value;
    var salted := Hi(k, a, Raw(PreparePassword(k, a, username, password).value), salt, ITERATIONS);
    ClientFinalReads(k, server.nonce, Proof(k, a, salted, reply.authMessage));
    assert reply.message[..|"c=biws,r=" + server.nonce|] == "c=biws,r=" + server.nonce;
  }

  /** RFC 5802: with the same password both ends accept each other, for every user, salt and nonces the checks allow. */
  lemma ExchangeSucceeds(k: Primitives, mechanism: string, username: string, password: string,
                         clientNonce: string, serverNonce: string, salt: seq<bv8>)
    requires Lawful(k) && Select(mechanism).Some? && username != ""
    requires ',' !in clientNonce && ',' !in serverNonce && |clientNonce| >= 8 && serverNonce != "" && salt != []
    requires PreparePassword(k, Select(mechanism).value, username, password).Some?
    ensures var a := Select(mechanism).value;
            var server := NewServer(k, mechanism, username, password, "n,," + FirstBare(username, clientNonce), serverNonce, salt);
            server.Ok? &&
            var reply := Reply(k, a, username, password, clientNonce, server.value.serverFirst);
            reply.Ok? &&
            var answer := Answer(k, server.value, reply.value.message);
            answer.Ok? && Check(k, reply.value.serverSignature, answer.value) == Ok(())
  {
    hide Attributes, LastIndex, Hi, ServerFirst, FirstBare, Raw, Reply, Answer, NewServer;
    var a := Select(mechanism).value;
    FirstAcceptedIff(k, mechanism, username, password, username, clientNonce, serverNonce, salt);
    var server := Opened(k, a, username, password, clientNonce, serverNonce, salt);
    AnswerIff(k, a, username, password, password, clientNonce, serverNonce, salt);
    ClientReplies(k, a, username, password, password, clientNonce, serverNonce, salt);
    var reply := Reply(k, a, username, password, clientNonce, server.serverFirst).value;
    var salted := ServerSalted(k, server).value;
    XorCancels(ClientKey(k, a, salted), ClientSignature(k, a, salted, reply.authMessage));
    ServerFinalReads(k, reply.serverSignature);
  }

  /** No two keys of the digest's own size hash alike. */
  ghost predicate CollisionFree(k: Primitives) {
    forall a: Algorithm, x, y :: |x| == a.Size() && |y| == a.Size() && k.digest(a, x) == k.digest(a, y) ==> x == y
  }

  /**
   Whatever the client sent: with a collision-free hash, an accepted proof is the one that the
   listener's own password gives for the text that was signed.
   */
  lemma OnlyTheRightProof(k: Primitives, server: Server, clientFinal: string)
    requires FixedSize(k) && CollisionFree(k) && server.iterations > 0
    ensures Answer(k, server, clientFinal).Ok? <==>
            && Attributes(clientFinal).Some? && ServerSalted(k, server).Some? && SignedText(server, clientFinal).Some?
            && Get(Attributes(clientFinal).value, 'c') == "biws" && Get(Attributes(clientFinal).value, 'r') == server.nonce
            && k.decode(Get(Attributes(clientFinal).value, 'p'))
               == Some(Proof(k, server.algorithm, ServerSalted(k, server).value, SignedText(server, clientFinal).value))
  {
    hide Attributes, Hi, Raw, SignedText, Get;
    var a, attributes := server.algorithm, Attributes(clientFinal);
    var expected, signed := ServerSalted(k, server), SignedText(server, clientFinal);
    if attributes.Some? && expected.Some? && signed.Some? {
      var proof := k.decode(Get(attributes.value, 'p'));
      if proof.Some? && |proof.value| == a.Size() {
        var signature := ClientSignature(k, a, expected.value, signed.value);
        XorCancels(proof.value, signature);
        XorCancels(ClientKey(k, a, expected.value), signature);
      }
    }
  }
}
