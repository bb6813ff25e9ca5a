/** The keys, proofs and messages of SCRAM written out in full, as RFC 5802 sections 2.2 and 3 have them. */
module ScramKeys {
  import opened Wrappers
  import opened Decimal
  import Octet
  import opened ScramText
  import opened Scram

  // ----- bytes ---------------------------------------------------------------------------------

  predicate AreBytesOf(bytes: seq<bv8>, text: string) {
    |bytes| == |text| && forall i :: 0 <= i < |text| ==> bytes[i] as int == text[i] as int % 256
  }

  lemma RawAreBytes(text: string)
    ensures AreBytesOf(Raw(text), text)
  {
    forall i | 0 <= i < |text| ensures Raw(text)[i] as int == text[i] as int % 256 {
      Octet.NumberSurvives(text[i] as int % 256);
    }
  }

  /** Byte by byte, one bit set and the other not. */
  predicate IsXor(result: seq<bv8>, a: seq<bv8>, b: seq<bv8>) {
    |result| == |a| <= |b| && forall i :: 0 <= i < |a| ==> result[i] == a[i] ^ b[i]
  }

  lemma XorIsXor(a: seq<bv8>, b: seq<bv8>)
    requires |a| <= |b|
    ensures IsXor(Xor(a, b), a, b)
  {
  }

  /** The number that bytes stand for, the first counting most. */
  function Number(bytes: seq<bv8>): nat {
    if bytes == [] then 0 else 256 * Number(bytes[..|bytes| - 1]) + bytes[|bytes| - 1] as nat
  }

  lemma NumberOfFour(a: nat, b: nat, c: nat, d: nat)
    requires a < 256 && b < 256 && c < 256 && d < 256
    ensures Number([a as bv8, b as bv8, c as bv8, d as bv8]) == 0x100_0000 * a + 0x1_0000 * b + 0x100 * c + d
  {
    Octet.NumberSurvives(a);
    Octet.NumberSurvives(b);
    Octet.NumberSurvives(c);
    Octet.NumberSurvives(d);
    NumberOfBytes(a as bv8, b as bv8, c as bv8, d as bv8);
  }

  lemma NumberOfBytes(a: bv8, b: bv8, c: bv8, d: bv8)
    ensures Number([a, b, c, d]) == 256 * (256 * (256 * (a as nat) + b as nat) + c as nat) + d as nat
  {
    assert [a, b, c, d][..3] == [a, b, c] && [a, b, c][..2] == [a, b] && [a, b][..1] == [a] && [a][..0] == [];
    assert Number([a]) == a as nat;
    assert Number([a, b]) == 256 * Number([a]) + b as nat;
    assert Number([a, b, c]) == 256 * Number([a, b]) + c as nat;
  }

  lemma FourDigits(i: nat)
    requires i < 0x1_0000_0000
    ensures i == 0x100_0000 * (i / 0x100_0000 % 256) + 0x1_0000 * (i / 0x1_0000 % 256) + 0x100 * (i / 0x100 % 256) + i % 256
  {
    assert i / 0x100_0000 % 256 == i / 0x100_0000;
    assert i / 0x1_0000 == 256 * (i / 0x100_0000) + i / 0x1_0000 % 256;
    assert i / 0x100 == 256 * (i / 0x1_0000) + i / 0x100 % 256;
  }

  /** INT(i) is the four bytes of i, for every i below 2^32. */
  lemma OctetsAreTheNumber(i: nat)
    requires i < 0x1_0000_0000
    ensures |Octets(i)| == 4 && Number(Octets(i)) == i
  {
    hide Number;
    NumberOfFour(i / 0x100_0000 % 256, i / 0x1_0000 % 256, i / 0x100 % 256, i % 256);
    FourDigits(i);
  }

  // ----- Hi ------------------------------------------------------------------------------------

  /** U1 is the MAC of the salt and the number one, every further one that of the one before. */
  ghost predicate IsChain(k: Primitives, a: Algorithm, password: seq<bv8>, salt: seq<bv8>, us: seq<seq<bv8>>) {
    && us != [] && us[0] == k.hmac(a, password, salt + [0, 0, 0, 1])
    && (forall i :: 1 <= i < |us| ==> us[i] == k.hmac(a, password, us[i - 1]))
    && (forall i :: 0 <= i < |us| ==> |us[i]| == a.Size())
  }

  /** Byte j of all of them put together. */
  function Folded(us: seq<seq<bv8>>, j: nat): bv8
    requires forall i :: 0 <= i < |us| ==> j < |us[i]|
  {
    if us == [] then 0 else us[0][j] ^ Folded(us[1..], j)
  }

  ghost predicate IsHi(k: Primitives, a: Algorithm, password: seq<bv8>, salt: seq<bv8>, iterations: nat, key: seq<bv8>) {
    exists us :: IsHiBy(k, a, password, salt, iterations, key, us)
  }

  ghost predicate IsHiBy(k: Primitives, a: Algorithm, password: seq<bv8>, salt: seq<bv8>, iterations: nat, key: seq<bv8>, us: seq<seq<bv8>>) {
    && |us| == iterations && IsChain(k, a, password, salt, us)
    && |key| == a.Size() && forall j :: 0 <= j < |key| ==> key[j] == Folded(us, j)
  }

  lemma {:induction false} FoldedSnoc(us: seq<seq<bv8>>, last: seq<bv8>, j: nat)
    requires (forall i :: 0 <= i < |us| ==> j < |us[i]|) && j < |last|
    ensures Folded(us + [last], j) == Folded(us, j) ^ last[j]
  {
    if us == [] {
      assert [last][1..] == [] && [] + [last] == [last];
      assert Folded([last], j) == last[j] ^ Folded([], j);
      ZeroIsNeutral(last[j]);
    } else {
      assert (us + [last])[1..] == us[1..] + [last];
      FoldedSnoc(us[1..], last, j);
      XorRegroups(us[0][j], Folded(us[1..], j), last[j]);
    }
  }

  lemma ZeroIsNeutral(x: bv8)
    ensures x ^ 0 == x && 0 ^ x == x
  {
  }

  lemma XorRegroups(a: bv8, b: bv8, c: bv8)
    ensures a ^ (b ^ c) == (a ^ b) ^ c
  {
  }

  lemma {:induction false} ChainOfU(k: Primitives, a: Algorithm, password: seq<bv8>, salt: seq<bv8>, n: nat) returns (us: seq<seq<bv8>>)
    requires FixedSize(k)
    ensures |us| == n + 1 && IsChain(k, a, password, salt, us) && us[n] == U(k, a, password, salt + [0, 0, 0, 1], n)
    ensures forall j :: 0 <= j < a.Size() ==> XorOfU(k, a, password, salt + [0, 0, 0, 1], n)[j] == Folded(us, j)
  {
    var seed := salt + [0, 0, 0, 1];
    if n == 0 {
      us := [U(k, a, password, seed, 0)];
      forall j | 0 <= j < a.Size() ensures XorOfU(k, a, password, seed, 0)[j] == Folded(us, j) {
        assert us[1..] == [];
        ZeroIsNeutral(us[0][j]);
      }
    } else {
      var before := ChainOfU(k, a, password, salt, n - 1);
      var last := U(k, a, password, seed, n);
      us := before + [last];
      forall j | 0 <= j < a.Size() ensures XorOfU(k, a, password, seed, n)[j] == Folded(us, j) {
        FoldedSnoc(before, last, j);
      }
    }
  }

  /** The salted password is Hi of the RFC, as written out above. */
  lemma HiInFull(k: Primitives, a: Algorithm, password: seq<bv8>, salt: seq<bv8>, iterations: nat)
    requires FixedSize(k) && iterations > 0
    ensures IsHi(k, a, password, salt, iterations, Hi(k, a, password, salt, iterations))
  {
    var us := ChainOfU(k, a, password, salt, iterations - 1);
    OctetsOfOne();
    assert IsHiBy(k, a, password, salt, iterations, Hi(k, a, password, salt, iterations), us);
  }

  lemma OctetsOfOne()
    ensures Octets(1) == [0, 0, 0, 1]
  {
    Octet.OneInFour();
  }

  /** One iteration is a single MAC. */
  lemma OneIteration(k: Primitives, a: Algorithm, password: seq<bv8>, salt: seq<bv8>)
    requires FixedSize(k)
    ensures DerivedKey(k, a, password, salt, 1, a.Size()) == k.hmac(a, password, salt + [0, 0, 0, 1])
  {
    DerivedKeyIsHi(k, a, password, salt, 1);
    OctetsOfOne();
  }

  /** Block i of a longer key is the same computation with the number i. */
  lemma BlockInFull(k: Primitives, a: Algorithm, password: seq<bv8>, salt: seq<bv8>, blocks: nat)
    requires FixedSize(k) && 0 < blocks < 0x1_0000_0000
    ensures Number(Octets(blocks)) == blocks
    ensures Blocks(k, a, password, salt, 1, blocks)[(blocks - 1) * a.Size()..] == k.hmac(a, password, salt + Octets(blocks))
  {
    OctetsAreTheNumber(blocks);
  }

  // ----- the client's answer -------------------------------------------------------------------

  /** The text "Client Key", and "Server Key", byte by byte. */
  const CLIENT_KEY: seq<bv8> := [0x43, 0x6c, 0x69, 0x65, 0x6e, 0x74, 0x20, 0x4b, 0x65, 0x79]
  const SERVER_KEY: seq<bv8> := [0x53, 0x65, 0x72, 0x76, 0x65, 0x72, 0x20, 0x4b, 0x65, 0x79]

  lemma AsciiByte(c: char, b: bv8)
    requires c as int == b as int
    ensures (c as int % 256) as bv8 == b
  {
    Octet.BitsSurvive(b);
  }

  lemma Labels()
    ensures Raw("Client Key") == CLIENT_KEY && Raw("Server Key") == SERVER_KEY
  {
    AsciiByte('C', 0x43);
    AsciiByte('l', 0x6c);
    AsciiByte('i', 0x69);
    AsciiByte('e', 0x65);
    AsciiByte('n', 0x6e);
    AsciiByte('t', 0x74);
    AsciiByte(' ', 0x20);
    AsciiByte('K', 0x4b);
    AsciiByte('y', 0x79);
    AsciiByte('S', 0x53);
    AsciiByte('r', 0x72);
    AsciiByte('v', 0x76);
  }

  /** The proof and the server's signature for a salted password and the text both ends sign. */
  ghost predicate AreKeys(k: Primitives, a: Algorithm, salted: seq<bv8>, signed: seq<bv8>, proof: seq<bv8>, serverSignature: seq<bv8>) {
    var clientKey := k.hmac(a, salted, CLIENT_KEY);
    && IsXor(proof, clientKey, k.hmac(a, k.digest(a, clientKey), signed))
    && serverSignature == k.hmac(a, k.hmac(a, salted, SERVER_KEY), signed)
  }

  lemma KeysInFull(k: Primitives, a: Algorithm, salted: seq<bv8>, authMessage: string)
    requires FixedSize(k)
    ensures AreKeys(k, a, salted, Raw(authMessage), Proof(k, a, salted, authMessage), ServerSignature(k, a, salted, authMessage))
  {
    hide Raw;
    Labels();
    XorIsXor(ClientKey(k, a, salted), ClientSignature(k, a, salted, authMessage));
  }

  /** What is hashed for a user and a password: for SCRAM-SHA-1 the MD5 text MongoDB asks for, else the prepared password. */
  ghost predicate IsPrepared(k: Primitives, a: Algorithm, username: string, password: string, prepared: string) {
    if a == Sha1 then prepared == k.md5Hex(username + ":mongo:" + password) else k.opaqueString(password) == Some(prepared)
  }

  /** An answer to a first message of the server, written out. */
  ghost predicate IsAnswer(k: Primitives, a: Algorithm, username: string, password: string, nonce: string, serverFirst: string,
                           reply: ClientReply, r: string, salt: seq<bv8>, iterations: nat, prepared: string, bytes: seq<bv8>,
                           salted: seq<bv8>, signed: seq<bv8>, proof: seq<bv8>) {
    && nonce <= r && |nonce| < |r| && 4096 <= iterations <= 10_000_000
    && IsPrepared(k, a, username, password, prepared) && AreBytesOf(bytes, prepared)
    && IsHi(k, a, bytes, salt, iterations, salted)
    && reply.authMessage == "n=" + Escape(username) + ",r=" + nonce + "," + serverFirst + ",c=biws,r=" + r
    && AreBytesOf(signed, reply.authMessage) && AreKeys(k, a, salted, signed, proof, reply.serverSignature)
    && reply.message == "c=biws,r=" + r + ",p=" + k.encode(proof)
  }

  /** The client answers as the RFC says, with the nonce, salt and iteration count that it was sent. */
  lemma ReplyInFull(k: Primitives, a: Algorithm, username: string, password: string, nonce: string, serverFirst: string)
    requires FixedSize(k) && Reply(k, a, username, password, nonce, serverFirst).Ok?
    ensures Attributes(serverFirst).Some?
    ensures var sent := Attributes(serverFirst).value;
            exists r, salt, iterations: nat, prepared, bytes, salted, signed, proof ::
              && Get(sent, 'r') == r && k.decode(Get(sent, 's')) == Some(salt) && Spells(Get(sent, 'i'), iterations)
              && IsAnswer(k, a, username, password, nonce, serverFirst, Reply(k, a, username, password, nonce, serverFirst).value,
                          r, salt, iterations, prepared, bytes, salted, signed, proof)
  {
    hide Attributes, Get, Raw, Hi, IsHi, Proof, ServerSignature, AreKeys, Escape, Atoi, Spells;
    var reply, sent := Reply(k, a, username, password, nonce, serverFirst).value, Attributes(serverFirst).value;
    var r, salt, iterations := Get(sent, 'r'), k.decode(Get(sent, 's')).value, SafeIterations(Get(sent, 'i')).value;
    var prepared := PreparePassword(k, a, username, password).value;
    AtoiIff(Get(sent, 'i'), iterations);
    HiInFull(k, a, Raw(prepared), salt, iterations);
    var salted := Hi(k, a, Raw(prepared), salt, iterations);
    RawAreBytes(prepared);
    RawAreBytes(reply.authMessage);
    KeysInFull(k, a, salted, reply.authMessage);
    SignedInFull(username, nonce, serverFirst, r);
    assert "c=biws,r=" + r + ",p=" == ("c=biws,r=" + r) + ",p=";
    assert IsAnswer(k, a, username, password, nonce, serverFirst, reply, r, salt, iterations, prepared, Raw(prepared), salted,
                    Raw(reply.authMessage), Proof(k, a, salted, reply.authMessage));
  }

  lemma SignedInFull(username: string, nonce: string, serverFirst: string, r: string)
    ensures FirstBare(username, nonce) + "," + serverFirst + "," + ("c=biws,r=" + r)
         == "n=" + Escape(username) + ",r=" + nonce + "," + serverFirst + ",c=biws,r=" + r
  {
    assert "," + ("c=biws,r=" + r) == ",c=biws,r=" + r;
  }

  /** Which first messages of the server the client answers. */
  lemma ReplyIff(k: Primitives, a: Algorithm, username: string, password: string, nonce: string, serverFirst: string)
    requires FixedSize(k)
    ensures Reply(k, a, username, password, nonce, serverFirst).Ok? <==>
            && Attributes(serverFirst).Some?
            && (var sent := Attributes(serverFirst).value;
                && nonce <= Get(sent, 'r') && |nonce| < |Get(sent, 'r')| && k.decode(Get(sent, 's')).Some?
                && (exists n: nat :: Spells(Get(sent, 'i'), n) && 4096 <= n <= 10_000_000)
                && (a == Sha1 || k.opaqueString(password).Some?))
  {
    hide Attributes, Get, Atoi, Spells, Hi, Proof, ServerSignature;
    if Attributes(serverFirst).Some? {
      var text := Get(Attributes(serverFirst).value, 'i');
      forall n: nat ensures Atoi(text) == Some(n) <==> Spells(text, n) && n <= INT_MAX {
        AtoiIff(text, n);
      }
    }
  }

  // ----- the server's verdict ------------------------------------------------------------------

  /**
   The server accepts an answer exactly when it repeats the channel binding and the nonce, and the key recovered from its proof hashes to
   what its own password, salt and iteration count give; it then signs the same text.
   */
  lemma AnswerInFull(k: Primitives, server: Server, clientFinal: string, salted: seq<bv8>, signed: string)
    requires FixedSize(k) && server.iterations > 0 && SignedText(server, clientFinal) == Some(signed)
    requires ServerSalted(k, server) == Some(salted) && Attributes(clientFinal).Some?
    ensures var sent, a := Attributes(clientFinal).value, server.algorithm;
            var stored := k.digest(a, k.hmac(a, salted, CLIENT_KEY));
            Answer(k, server, clientFinal).Ok? <==>
            && Get(sent, 'c') == "biws" && Get(sent, 'r') == server.nonce && k.decode(Get(sent, 'p')).Some?
            && (var proof := k.decode(Get(sent, 'p')).value;
                |proof| == (if a == Sha1 then 20 else 32)
                && exists recovered :: IsXor(recovered, proof, k.hmac(a, stored, Raw(signed))) && k.digest(a, recovered) == stored)
    ensures Answer(k, server, clientFinal).Ok? ==>
            Answer(k, server, clientFinal) == Ok("v=" + k.encode(k.hmac(server.algorithm, k.hmac(server.algorithm, salted, SERVER_KEY), Raw(signed))))
  {
    hide Attributes, Get, Raw, Hi, SignedText;
    Labels();
    var sent, a := Attributes(clientFinal).value, server.algorithm;
    var signature := ClientSignature(k, a, salted, signed);
    var proof := k.decode(Get(sent, 'p'));
    if proof.Some? && |proof.value| == a.Size() {
      XorIsXor(proof.value, signature);
      forall recovered | IsXor(recovered, proof.value, signature) ensures recovered == Xor(proof.value, signature) {
        assert forall i :: 0 <= i < |recovered| ==> recovered[i] == Xor(proof.value, signature)[i];
      }
    }
  }

  lemma ServerSaltInFull(k: Primitives, server: Server)
    requires FixedSize(k) && server.iterations > 0 && ServerSalted(k, server).Some?
    ensures exists prepared, bytes ::
              && IsPrepared(k, server.algorithm, server.expectedUser, server.password, prepared) && AreBytesOf(bytes, prepared)
              && IsHi(k, server.algorithm, bytes, server.salt, server.iterations, ServerSalted(k, server).value)
  {
    hide Raw, Hi, IsHi;
    var prepared := PreparePassword(k, server.algorithm, server.expectedUser, server.password).value;
    RawAreBytes(prepared);
    HiInFull(k, server.algorithm, Raw(prepared), server.salt, server.iterations);
    assert IsPrepared(k, server.algorithm, server.expectedUser, server.password, prepared) && AreBytesOf(Raw(prepared), prepared);
  }

  /** What the server sends first. */
  lemma ServerFirstInFull(k: Primitives, nonce: string, salt: seq<bv8>)
    ensures ServerFirst(k, nonce, salt) == "r=" + nonce + ",s=" + k.encode(salt) + ",i=15000"
  {
    assert Itoa(15000) == Itoa(1500) + "0" && Itoa(1500) == Itoa(150) + "0" && Itoa(150) == Itoa(15) + "0";
    assert Itoa(15) == Itoa(1) + "5" && Itoa(1) == "1";
  }

  // ----- texts ---------------------------------------------------------------------------------

  function HexDigit(d: nat): char
    requires d < 16
  {
    if d < 10 then ('0' as int + d) as char else ('A' as int + d - 10) as char
  }

  /** An equals sign and a comma are written as an equals sign and their code in two digits; any other character as itself. */
  function Escaped(c: char): string {
    if (c == '=' || c == ',') then ['=', HexDigit(c as int / 16 % 16), HexDigit(c as int % 16)] else [c]
  }

  lemma EscapedIs()
    ensures Escaped('=') == "=3D" && Escaped(',') == "=2C"
  {
    assert ('0' as int + 3) as char == '3' && ('0' as int + 2) as char == '2';
    assert ('A' as int + 13 - 10) as char == 'D' && ('A' as int + 12 - 10) as char == 'C';
  }

  function EscapedAll(name: string): string {
    if name == "" then "" else Escaped(name[0]) + EscapedAll(name[1..])
  }

  /** The escaped form of a name, character by character. */
  lemma {:induction false} EscapeInFull(name: string)
    ensures Escape(name) == EscapedAll(name)
  {
    EscapedIs();
    if name != "" {
      EscapeInFull(name[1..]);
    }
  }

  lemma SelectIff(mechanism: string, a: Algorithm)
    ensures Select(mechanism) == Some(a) <==> mechanism == if a.Size() == 32 then "SCRAM-SHA-256" else "SCRAM-SHA-1"
    ensures a.Size() == 20 || a.Size() == 32
  {
  }

  /** The signed text ends where the last ",p=" starts. */
  ghost predicate IsSigned(server: Server, clientFinal: string, signed: string) {
    exists front, rest ::
      && clientFinal == front + ",p=" + rest && signed == server.clientFirstBare + "," + server.serverFirst + "," + front
      && forall j :: |front| < j ==> !StartsAt(clientFinal, ",p=", j)
  }

  lemma SignedIff(server: Server, clientFinal: string, signed: string)
    ensures SignedText(server, clientFinal) == Some(signed) <==> IsSigned(server, clientFinal, signed)
  {
    hide LastIndex;
    var i := LastIndex(clientFinal, ",p=");
    if i >= 0 {
      var front, rest := clientFinal[..i], clientFinal[i + 3..];
      assert clientFinal == front + ",p=" + rest;
      if SignedText(server, clientFinal) == Some(signed) {
        assert IsSigned(server, clientFinal, signed);
      }
    }
    if IsSigned(server, clientFinal, signed) {
      var front, rest :|
        && clientFinal == front + ",p=" + rest && signed == server.clientFirstBare + "," + server.serverFirst + "," + front
        && forall j :: |front| < j ==> !StartsAt(clientFinal, ",p=", j);
      assert clientFinal[|front|..|front| + 3] == ",p=";
      assert StartsAt(clientFinal, ",p=", |front|);
      assert i == |front| && clientFinal[..i] == front;
    }
  }

  // ----- the client's verdict ------------------------------------------------------------------

  /** Of the servers that send a signature, the client accepts those that send the right one; a server that sends an error is refused. */
  lemma VerdictIff(k: Primitives, signature: seq<bv8>, sent: seq<bv8>, problem: string)
    requires Base64(k) && sent != [] && problem != "" && ',' !in problem
    ensures Check(k, signature, "v=" + k.encode(sent)).Ok? <==> sent == signature
    ensures Check(k, signature, "e=" + problem) == Err(ServerRejected)
    ensures Check(k, signature, "e=" + problem + ",v=" + k.encode(sent)) == Err(ServerRejected)
  {
    hide Attributes;
    var value := k.encode(sent);
    assert "v=" + value == ['v'] + "=" + value && "e=" + problem == ['e'] + "=" + problem;
    assert "e=" + problem + ",v=" + value == (['e'] + "=" + problem) + "," + (['v'] + "=" + value);
    OneAttribute('v', value);
    OneAttribute('e', problem);
    TwoAttributes('e', problem, 'v', value);
  }

  lemma OneAttribute(key: char, value: string)
    requires Proper(Attribute(key, value))
    ensures Attributes([key] + "=" + value) == Some(map[key := value])
  {
    var attributes := [Attribute(key, value)];
    ReadPrinted(attributes);
    assert PrintParts(attributes) == [[key] + "=" + value];
    assert attributes[1..] == [];
    assert Bindings(attributes, map[]) == map[][key := value];
  }

  lemma TwoAttributes(key: char, value: string, key2: char, value2: string)
    requires Proper(Attribute(key, value)) && Proper(Attribute(key2, value2)) && key != key2
    ensures Attributes(([key] + "=" + value) + "," + ([key2] + "=" + value2)) == Some(map[key := value, key2 := value2])
  {
    var attributes := [Attribute(key, value), Attribute(key2, value2)];
    ReadPrinted(attributes);
    var parts := PrintParts(attributes);
    assert parts == [[key] + "=" + value, [key2] + "=" + value2];
    assert parts[1..] == [[key2] + "=" + value2];
    assert Join(parts) == parts[0] + "," + Join(parts[1..]) && Join(parts[1..]) == parts[1];
    assert attributes[1..] == [attributes[1]] && attributes[1..][1..] == [];
    assert Bindings(attributes[1..], map[key := value]) == Bindings([], map[key := value][key2 := value2]);
  }
}
