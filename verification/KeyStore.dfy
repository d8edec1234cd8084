/**
 Key files as the login and logout commands see them. What a library parses out of a file (the
 comment of a public key, the key that a certificate certifies) is the file's content here.
 */
module KeyStore {
  import opened Text
  import SshConfig

  datatype Content =
    | SecretKey(key: int)
    | Certificate(key: int, serial: int, comment: string)
    | PublicKey(key: int, comment: string)
    | Other(text: string)

  /** A file can exist without being readable. */
  datatype Node = Node(content: Content, readable: bool)

  type Fs = map<string, Node>

  function CertPath(secret: string): string { secret + "-cert.pub" }

  /** ssh.ParseAuthorizedKey: the comment of a public key file. */
  function Comment(content: Content): Option<string>
  {
    match content
    case Certificate(_, _, comment) => Some(comment)
    case PublicKey(_, comment) => Some(comment)
    case _ => None
  }

  /** verifyKeyPairMatch. */
  predicate Certifies(cert: Content, secret: Content)
  {
    secret.SecretKey? && cert.Certificate? && secret.key == cert.key
  }

  /** isOpenpubkeyComment. */
  predicate IsOpenpubkey(content: Content)
  {
    Comment(content).Some? && HasPrefix(Comment(content).value, "openpubkey")
  }

  /** Reading a file: none if it is missing or not readable. */
  function Read(fs: Fs, path: string): Option<Content>
  {
    if path in fs && fs[path].readable then Some(fs[path].content) else None
  }

  /** Writing a file: an existing file keeps its attributes. */
  function Put(fs: Fs, path: string, content: Content): Fs
  {
    fs[path := Node(content, path in fs ==> fs[path].readable)]
  }

  // ---------------------------------------------------------------- names

  /** DefaultSSHKeyFileNames, per key type. */
  const ECDSA_NAMES := ["id_ecdsa", "id_ecdsa_sk"]
  const ED25519_NAMES := ["id_ed25519", "id_ed25519_sk"]

  const CERT_SUFFIX := "-cert.pub"

  predicate IsFileName(name: string) { '/' !in name && !HasSuffix(name, CERT_SUFFIX) }

  /** Names of key files: distinct, and none of them another's certificate. */
  predicate AreNames(names: seq<string>)
  {
    && (forall i :: 0 <= i < |names| ==> IsFileName(names[i]))
    && (forall i, j :: 0 <= i < j < |names| ==> names[i] != names[j])
  }

  lemma PathInInjective(dir: string, a: string, b: string)
    ensures PathIn(dir, a) == PathIn(dir, b) <==> a == b
  {
    assert a == PathIn(dir, a)[|dir| + 1..] && b == PathIn(dir, b)[|dir| + 1..];
  }

  /** A path in a directory ends like a certificate exactly if its name does. */
  lemma SuffixOfPath(dir: string, name: string)
    ensures HasSuffix(PathIn(dir, name), CERT_SUFFIX) <==> HasSuffix(name, CERT_SUFFIX)
  {
    var path, n := PathIn(dir, name), |CERT_SUFFIX|;
    if n <= |name| {
      assert name[|name| - n..] == path[|path| - n..];
    } else if n <= |path| {
      var k := |dir| - (|path| - n);
      assert path[|path| - n..][k] == path[|dir|] == '/';
      assert forall c <- CERT_SUFFIX :: c != '/';
      assert CERT_SUFFIX[k] != '/';
    }
  }

  lemma NotACertPath(dir: string, name: string, other: string)
    requires IsFileName(name)
    ensures PathIn(dir, name) != CertPath(other)
  {
    SuffixOfPath(dir, name);
    var cert := CertPath(other);
    assert cert[|cert| - |CERT_SUFFIX|..] == CERT_SUFFIX;
  }

  predicate IsAllowed(c: char)
  {
    'a' <= c <= 'z' || 'A' <= c <= 'Z' || '0' <= c <= '9' || c == '_' || c == '-' || c == '.'
  }

  /** Every run of other characters becomes one underscore. */
  function Sanitize(s: string, inRun: bool): string
  {
    if s == "" then ""
    else if IsAllowed(s[0]) then [s[0]] + Sanitize(s[1..], false)
    else (if inRun then "" else "_") + Sanitize(s[1..], true)
  }

  function CutPrefix(s: string, prefix: string): string
  {
    if HasPrefix(s, prefix) then s[|prefix|..] else s
  }

  function OrUnknown(value: Option<string>): string
  {
    match value case Some(text) => text case None => "unknown"
  }

  /** Bytes of a character in UTF-8. */
  function Bytes(c: char): nat
  {
    if c < '\U{80}' then 1 else if c < '\U{800}' then 2 else if c < '\U{10000}' then 3 else 4
  }

  /**
   The first `n` bytes. A character that is cut in two is kept whole: half a character and a whole
   one that is not ASCII are sanitised alike.
   */
  function CutBytes(s: string, n: int): string
  {
    if s == "" || n <= 0 then "" else [s[0]] + CutBytes(s[1..], n - Bytes(s[0]))
  }

  /** makeSSHKeyFileName. */
  function KeyName(issuer: Option<string>, audience: Option<string>): string
  {
    Sanitize(CutPrefix(OrUnknown(issuer), "https://") + "-" + CutBytes(OrUnknown(audience), 20), false)
  }

  lemma {:induction false} SanitizedIsAllowed(s: string, inRun: bool)
    ensures forall c <- Sanitize(s, inRun) :: IsAllowed(c)
  {
    if s != "" {
      SanitizedIsAllowed(s[1..], !IsAllowed(s[0]));
    }
  }

  lemma {:induction false} SanitizedKeeps(a: string, c: char, b: string, inRun: bool)
    requires IsAllowed(c)
    ensures c in Sanitize(a + [c] + b, inRun)
    decreases |a|
  {
    var s := a + [c] + b;
    if a != "" {
      assert s[1..] == a[1..] + [c] + b;
      SanitizedKeeps(a[1..], c, b, !IsAllowed(s[0]));
    }
  }

  /** A name of allowed characters stays as it is. */
  lemma {:induction false} SanitizedStays(s: string, inRun: bool)
    requires forall c <- s :: IsAllowed(c)
    ensures Sanitize(s, inRun) == s
    decreases |s|
  {
    hide IsAllowed;
    if s != "" {
      assert s[0] in s;
      SanitizedStays(s[1..], false);
    }
  }

  lemma {:induction false} CutsNothing(s: string, n: int)
    requires |s| <= n && forall c <- s :: IsAllowed(c)
    ensures CutBytes(s, n) == s
  {
    if s != "" {
      assert s[0] in s;
      CutsNothing(s[1..], n - 1);
    }
  }

  /** A run of other characters becomes one underscore. */
  lemma {:induction false} SanitizedRun(kept: string, run: string, rest: string)
    requires forall c <- kept ::
               'a' <= c <= 'z' || 'A' <= c <= 'Z' || '0' <= c <= '9' || c == '_' || c == '-' || c == '.'
    requires run != "" && forall c <- run ::
               !('a' <= c <= 'z' || 'A' <= c <= 'Z' || '0' <= c <= '9' || c == '_' || c == '-' || c == '.')
    requires rest == "" || IsAllowed(rest[0])
    ensures Sanitize(kept + run + rest, false) == kept + "_" + Sanitize(rest, false)
    decreases |kept|
  {
    var s := kept + run + rest;
    if kept == "" {
      assert s[0] == run[0] && run[0] in run && s[1..] == run[1..] + rest;
      assert forall c <- run[1..] :: c in run;
      RestOfRun(run[1..], rest);
    } else {
      assert kept[0] in kept && s[1..] == kept[1..] + run + rest;
      assert forall c <- kept[1..] :: c in kept;
      SanitizedRun(kept[1..], run, rest);
      assert [kept[0]] + (kept[1..] + "_" + Sanitize(rest, false)) == kept + "_" + Sanitize(rest, false);
    }
  }

  lemma {:induction false} RestOfRun(run: string, rest: string)
    requires forall c <- run :: !IsAllowed(c)
    requires rest == "" || IsAllowed(rest[0])
    ensures Sanitize(run + rest, true) == Sanitize(rest, false)
    decreases |run|
  {
    if run == "" {
      assert run + rest == rest;
    } else {
      assert run[0] in run && (run + rest)[1..] == run[1..] + rest;
      assert forall c <- run[1..] :: c in run;
      RestOfRun(run[1..], rest);
    }
  }

  /** A name is made of issuer, without https://, and audience; what a token lacks is unknown. */
  lemma WhatIsNamed(issuer: string, audience: string)
    requires !("https://" <= issuer)
    ensures KeyName(Some("https://" + issuer), Some(audience)) == Sanitize(issuer + "-" + CutBytes(audience, 20), false)
    ensures KeyName(Some(issuer), Some(audience)) == Sanitize(issuer + "-" + CutBytes(audience, 20), false)
    ensures KeyName(None, Some(audience)) == Sanitize("unknown-" + CutBytes(audience, 20), false)
    ensures KeyName(Some(issuer), None) == Sanitize(issuer + "-unknown", false)
  {
    hide Sanitize;
    assert ("https://" + issuer)[8..] == issuer;
    CutsNothing("unknown", 20);
    assert "unknown" + "-" + CutBytes(audience, 20) == "unknown-" + CutBytes(audience, 20);
    assert issuer + "-" + "unknown" == issuer + "-unknown";
  }

  /** Cutting keeps a prefix: all of a short text, else no more characters than bytes. */
  lemma {:induction false} WhatIsCut(s: string, n: int)
    ensures CutBytes(s, n) <= s && (n >= 0 ==> |CutBytes(s, n)| <= n)
    ensures n >= 4 * |s| ==> CutBytes(s, n) == s
    ensures (forall c <- s :: c < '\U{80}') && 0 <= n <= |s| ==> CutBytes(s, n) == s[..n]
  {
    if s != "" && n > 0 {
      WhatIsCut(s[1..], n - Bytes(s[0]));
      assert s == [s[0]] + s[1..];
      if (forall c <- s :: c < '\U{80}') && 0 <= n <= |s| {
        assert s[0] in s && forall c <- s[1..] :: c in s;
        assert [s[0]] + s[1..][..n - 1] == s[..n];
      }
    }
  }

  // ---------------------------------------------------------------- the name byte by byte

  /** A character in UTF-8. */
  function Utf8(c: char): (bytes: seq<int>)
    ensures |bytes| >= 1 && (bytes[0] < 0x80 <==> c < '\U{80}')
  {
    var n := c as int;
    if n < 0x80 then [n]
    else if n < 0x800 then [0xC0 + n / 64, 0x80 + n % 64]
    else if n < 0x10000 then [0xE0 + n / 4096, 0x80 + n / 64 % 64, 0x80 + n % 64]
    else [0xF0 + n / 262144, 0x80 + n / 4096 % 64, 0x80 + n / 64 % 64, 0x80 + n % 64]
  }

  function Encoded(s: string): seq<int> { if s == "" then [] else Utf8(s[0]) + Encoded(s[1..]) }

  function FirstBytes(bytes: seq<int>, n: int): seq<int>
  {
    if n <= 0 then [] else if n < |bytes| then bytes[..n] else bytes
  }

  /** Every run of bytes that are no allowed character becomes one underscore. */
  function SanitizeBytes(bytes: seq<int>, inRun: bool): string
  {
    if bytes == [] then ""
    else if 0 <= bytes[0] < 0x80 && IsAllowed(bytes[0] as char) then
      [bytes[0] as char] + SanitizeBytes(bytes[1..], false)
    else (if inRun then "" else "_") + SanitizeBytes(bytes[1..], true)
  }

  /** Bytes that belong to no ASCII character only open or continue a run. */
  lemma {:induction false} HighBytes(high: seq<int>, rest: seq<int>, inRun: bool)
    requires high != [] && forall b <- high :: b >= 0x80
    ensures SanitizeBytes(high + rest, inRun) == (if inRun then "" else "_") + SanitizeBytes(rest, true)
  {
    assert (high + rest)[1..] == high[1..] + rest && high[0] in high;
    if |high| == 1 {
      assert high[1..] + rest == rest;
    } else {
      assert forall b <- high[1..] :: b in high;
      HighBytes(high[1..], rest, true);
    }
  }

  lemma HighChar(c: char)
    requires c >= '\U{80}'
    ensures forall b <- Utf8(c) :: b >= 0x80
    ensures !IsAllowed(c)
  {
  }

  /** Cutting characters and sanitising them is cutting bytes, wherever characters end, and sanitising those. */
  lemma {:induction false} CutAsBytes(s: string, n: int, inRun: bool)
    ensures Sanitize(CutBytes(s, n), inRun) == SanitizeBytes(FirstBytes(Encoded(s), n), inRun)
  {
    if s != "" && n > 0 {
      var c, k := s[0], |Utf8(s[0])|;
      var rest := Encoded(s[1..]);
      assert Bytes(c) == k;
      assert CutBytes(s, n)[1..] == CutBytes(s[1..], n - k);
      CutAsBytes(s[1..], n - k, !IsAllowed(c));
      if n < k {
        assert FirstBytes(Utf8(c) + rest, n) == Utf8(c)[..n] + [];
        HighChar(c);
        HighBytes(Utf8(c)[..n], [], inRun);
      } else {
        assert FirstBytes(Utf8(c) + rest, n) == Utf8(c) + FirstBytes(rest, n - k);
        if c < '\U{80}' {
          assert Utf8(c) == [c as int];
        } else {
          HighChar(c);
          HighBytes(Utf8(c), FirstBytes(rest, n - k), inRun);
        }
      }
    }
  }

  lemma {:induction false} SanitizeInParts(a: string, b: string, bytes: seq<int>, inRun: bool)
    requires forall run :: Sanitize(b, run) == SanitizeBytes(bytes, run)
    ensures Sanitize(a + b, inRun) == SanitizeBytes(Encoded(a) + bytes, inRun)
  {
    if a == "" {
      assert a + b == b && Encoded(a) + bytes == bytes;
    } else {
      var c := a[0];
      SanitizeInParts(a[1..], b, bytes, !IsAllowed(c));
      assert (a + b)[1..] == a[1..] + b;
      assert Encoded(a) + bytes == Utf8(c) + (Encoded(a[1..]) + bytes);
      if c < '\U{80}' {
        assert Utf8(c) == [c as int];
      } else {
        HighChar(c);
        HighBytes(Utf8(c), Encoded(a[1..]) + bytes, inRun);
      }
    }
  }

  /** The name of a key, byte by byte: the audience is cut after twenty bytes, wherever a character ends. */
  lemma NameAsBytes(issuer: string, audience: string)
    ensures KeyName(Some(issuer), Some(audience)) ==
            SanitizeBytes(Encoded(CutPrefix(issuer, "https://") + "-") + FirstBytes(Encoded(audience), 20), false)
  {
    forall run ensures Sanitize(CutBytes(audience, 20), run) ==
                       SanitizeBytes(FirstBytes(Encoded(audience), 20), run) {
      CutAsBytes(audience, 20, run);
    }
    var cut := FirstBytes(Encoded(audience), 20);
    SanitizeInParts(CutPrefix(issuer, "https://") + "-", CutBytes(audience, 20), cut, false);
  }

  /** The key name of an issuer and a short audience of allowed characters. */
  lemma KeyNameOf(host: string, audience: string)
    requires |audience| <= 20 && forall c <- host + "-" + audience :: IsAllowed(c)
    ensures KeyName(Some("https://" + host), Some(audience)) == host + "-" + audience
  {
    hide IsAllowed;
    var s := host + "-" + audience;
    assert forall c <- audience :: c in s;
    CutsNothing(audience, 20);
    SanitizedStays(s, false);
    assert ("https://" + host)[8..] == host;
  }

  // ---------------------------------------------------------------- two key names

  /** Neither the same key nor one the other's certificate. */
  predicate AreApart(a: string, b: string)
  {
    a != b && a != CertPath(b) && b != CertPath(a)
  }

  /** The files of two keys are different files exactly if their names are apart. */
  lemma PairsAreDisjoint(dir: string, a: string, b: string)
    ensures var p, q := PathIn(dir, a), PathIn(dir, b);
            {p, CertPath(p)} !! {q, CertPath(q)} <==> AreApart(a, b)
  {
    var p, q := PathIn(dir, a), PathIn(dir, b);
    CertPathIn(dir, a);
    CertPathIn(dir, b);
    PathInInjective(dir, a, b);
    PathInInjective(dir, a, CertPath(b));
    PathInInjective(dir, CertPath(a), b);
    PathInInjective(dir, CertPath(a), CertPath(b));
    CertPathInjective(a, b);
  }

  lemma CertPathIn(dir: string, name: string)
    ensures CertPath(PathIn(dir, name)) == PathIn(dir, CertPath(name))
  {
  }

  lemma CertPathInjective(a: string, b: string)
    ensures CertPath(a) == CertPath(b) <==> a == b
  {
    if CertPath(a) == CertPath(b) {
      assert |a| == |b| && a == CertPath(a)[..|a|] && b == CertPath(b)[..|b|];
    }
  }

  /** A key name is never the name of the config file, and the config edit can be undone for its path. */
  lemma KeyNameIsSafe(dir: string, issuer: Option<string>, audience: Option<string>)
    ensures var name := KeyName(issuer, audience);
            && name != "" && name != "config" && '/' !in name && '-' in name
            && ('\n' !in dir && '\r' !in dir ==> SshConfig.IsKeyPath(PathIn(dir, name)))
  {
    var short := CutBytes(OrUnknown(audience), 20);
    var iss := CutPrefix(OrUnknown(issuer), "https://");
    var name := KeyName(issuer, audience);
    SanitizedIsAllowed(iss + "-" + short, false);
    SanitizedKeeps(iss, '-', short, false);
    assert name[|name| - 1] in name;
    AllowedIsVisible();
    var path := PathIn(dir, name);
    assert path[|path| - 1] == name[|name| - 1];
  }

  lemma AllowedIsVisible()
    ensures forall c :: IsAllowed(c) ==> !IsSpace(c) && c != '/'
  {
  }
}
