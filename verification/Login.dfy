/** AUTH LOGIN with the server's own Base64 decoder and MD5 digest, from bytes on the wire to the user table. */
module Login {
  import opened CStrings
  import opened Buffer
  import opened Bytes
  import opened Smtp
  import opened SmtpProofs
  import opened SmtpMail
  import opened SmtpTransaction
  import Base64
  import Md5Spec

  function BytesOf(s: string): (bs: seq<Byte>)
    requires Chars8(s)
    ensures |bs| == |s| && forall i :: 0 <= i < |s| ==> bs[i] == s[i] as int
  {
    seq(|s|, i requires 0 <= i < |s| => s[i] as int)
  }

  function Chars(bs: seq<Byte>): (s: string)
    ensures |s| == |bs| && forall i :: 0 <= i < |bs| ==> s[i] == bs[i] as char
  {
    seq(|bs|, i requires 0 <= i < |bs| => bs[i] as char)
  }

  /** Every char is a byte. */
  predicate Chars8(s: string) {
    forall i :: 0 <= i < |s| ==> s[i] as int < 256
  }

  /** The session decodes with Base64Decode and uses the bytes as a C string. */
  ghost predicate DecodesBase64(cfg: Config, table: seq<int>) {
    && Base64.Ready(table)
    && forall line :: line != "" && Base64.Ascii(line) ==>
         cfg.decode(line) == match Base64.Decoded(table, line)
                             case None => None
                             case Some(bs) => Some(CStr(Chars(bs) + "\0"))
  }

  ghost predicate HashesMd5(cfg: Config) {
    forall s :: cfg.hash(s) == Md5Spec.HexDigest(s)
  }

  ghost predicate Credential(s: string) {
    s != "" && '\0' !in s && Chars8(s)
  }

  /** Decoding an encoded credential gives it back as the session sees it. */
  lemma CredentialDecodes(cfg: Config, table: seq<int>, s: string)
    requires DecodesBase64(cfg, table) && Credential(s)
    ensures cfg.decode(Base64.Encoded(BytesOf(s))) == Some(s) && Base64.Encoded(BytesOf(s)) != "*"
  {
    Base64.DecodeEncode(table, BytesOf(s));
    assert Chars(BytesOf(s)) == s;
    var mem := s + "\0";
    IndexOfUnique(mem, '\0', |s|);
    assert mem[..|s|] == s;
    assert |Base64.Encoded(BytesOf(s))| % 4 == 0;
  }

  lemma SymbolPrints(s: Base64.Sextet)
    ensures Base64.Symbol(s) > ' '
  {
  }

  lemma GroupPrints(data: seq<Byte>)
    requires 1 <= |data| <= 3
    ensures forall i :: 0 <= i < 4 ==> Base64.GroupText(data)[i] > ' '
  {
    hide Base64.Symbol;
    forall s: Base64.Sextet ensures Base64.Symbol(s) > ' ' {
      SymbolPrints(s);
    }
  }

  /** Encoded text has no byte that would end a line. */
  lemma {:induction false} EncodedPrints(data: seq<Byte>)
    ensures forall i :: 0 <= i < |Base64.Encoded(data)| ==> Base64.Encoded(data)[i] > ' '
    decreases |data|
  {
    hide Base64.GroupText;
    if 0 < |data| <= 3 {
      GroupPrints(data);
    } else if |data| > 3 {
      GroupPrints(data[..3]);
      EncodedPrints(data[3..]);
    }
  }

  lemma EncodedIsLine(data: seq<Byte>)
    ensures OneLine(Base64.Encoded(data))
  {
    EncodedPrints(data);
  }

  /** What a client sends to log in. */
  function LoginLines(user: string, password: string): seq<string>
    requires Chars8(user) && Chars8(password)
  {
    ["AUTH LOGIN", Base64.Encoded(BytesOf(user)), Base64.Encoded(BytesOf(password))]
  }

  lemma LoginLine()
    ensures OneLine("AUTH LOGIN")
  {
  }

  lemma NothingRead()
    ensures Lines("") == [] && Tail("") == ""
  {
  }

  /**
   * However the network cuts the bytes of a login, it authenticates the session, as exactly that
   * user, if and only if the user table stores the MD5 digest of that password for that address.
   */
  lemma LoginOverTheWire(cfg: Config, table: seq<int>, m: Machine, user: string, password: string, chunks: seq<string>)
    requires DecodesBase64(cfg, table) && HashesMd5(cfg)
    requires Inv(cfg, m) && m.phase == BeforeMail && !m.authenticated
    requires Credential(user) && Credential(password)
    requires Joined(chunks) == Terminated(LoginLines(user, password))
    ensures var e := EatAll(cfg, Endpoint("", m), chunks);
            && e.pending == "" && e.m.phase == BeforeMail
            && (e.m.authenticated <==> user in cfg.users && cfg.users[user] == Md5Spec.HexDigest(password))
            && (e.m.authenticated ==> e.m.username == Some(user))
  {
    hide Inv, Lines, Tail, Run, DecodesBase64, Terminated, OneLine;
    var userCode, passwordCode := Base64.Encoded(BytesOf(user)), Base64.Encoded(BytesOf(password));
    EncodedIsLine(BytesOf(user));
    EncodedIsLine(BytesOf(password));
    LoginLine();
    var lines := LoginLines(user, password);
    LinesThen(lines, "");
    NothingRead();
    assert Terminated(lines) + "" == Terminated(lines) && lines + [] == lines;
    ChunksDoNotMatter(cfg, Endpoint("", m), chunks);
    assert "" + Joined(chunks) == Joined(chunks);
    CredentialDecodes(cfg, table, user);
    CredentialDecodes(cfg, table, password);
    LoginExact(cfg, m, user, userCode, password, passwordCode);
  }

  /** What the server asks a client that logs in is "Username:" and "Password:" in Base64. */
  lemma PromptsEncoded(cfg: Config)
    ensures Words(cfg, AskUsername) == Base64.Encoded([85, 115, 101, 114, 110, 97, 109, 101, 58])
    ensures Words(cfg, AskPassword) == Base64.Encoded([80, 97, 115, 115, 119, 111, 114, 100, 58])
  {
    hide Base64.Encoded;
    Base64.UsernameEncoded();
    Base64.PasswordEncoded();
  }
}
