/** Users and passwords (auth.c, and the user list of server.c). */
module Auths {
  import opened Objects
  import opened Keys
  import S = Sha256
  import T = Sha256Streaming

  /** A configured user with the stored form of the password. */
  datatype User = User(name: string, password: seq<S.Byte>)

  /** The octets a text stands for. */
  function Octets(s: string): (r: seq<S.Byte>)
    ensures |r| == |s|
  {
    seq(|s|, i requires 0 <= i < |s| => (s[i] as int % 256) as S.Byte)
  }

  /** The characters 0 to 9 and a to f. */
  const CSET: seq<S.Byte> := [
    0x30, 0x31, 0x32, 0x33, 0x34, 0x35, 0x36, 0x37, 0x38, 0x39, 0x61, 0x62, 0x63, 0x64, 0x65, 0x66]

  function HexPair(b: S.Byte): (s: seq<S.Byte>)
    ensures |s| == 2
  {
    [CSET[((b & 0xf0) >> 4) as int], CSET[(b & 0x0f) as int]]
  }

  function Hex(d: seq<S.Byte>): (s: seq<S.Byte>)
    ensures |s| == 2 * |d|
  {
    if d == [] then [] else Hex(d[..|d| - 1]) + HexPair(d[|d| - 1])
  }

  /** Two characters a byte, the high half first, in lower case. */
  lemma HexExample()
    ensures Hex([0x09, 0xaf]) == [0x30, 0x39, 0x61, 0x66]
  {
    assert [0x09, 0xaf][..1] == [0x09] && [0x09][..0] == [];
    assert HexPair(0x09) == [0x30, 0x39] && HexPair(0xaf) == [0x61, 0x66];
  }

  lemma NibblesInjective(a: S.Byte, b: S.Byte)
    requires (a & 0xf0) >> 4 == (b & 0xf0) >> 4 && a & 0x0f == b & 0x0f
    ensures a == b
  {
  }

  lemma CsetInjective(i: nat, j: nat)
    requires i < 16 && j < 16 && CSET[i] == CSET[j]
    ensures i == j
  {
  }

  lemma HexPairInjective(a: S.Byte, b: S.Byte)
    requires HexPair(a) == HexPair(b)
    ensures a == b
  {
    var p, q := HexPair(a), HexPair(b);
    assert p[0] == q[0] && p[1] == q[1];
    CsetInjective(((a & 0xf0) >> 4) as int, ((b & 0xf0) >> 4) as int);
    CsetInjective((a & 0x0f) as int, (b & 0x0f) as int);
    NibblesInjective(a, b);
  }

  lemma {:induction false} HexInjective(c: seq<S.Byte>, d: seq<S.Byte>)
    requires Hex(c) == Hex(d)
    ensures c == d
  {
    assert |c| == |d|;
    if c != [] {
      hide HexPair;
      var n := |c| - 1;
      assert Hex(c)[..2 * n] == Hex(c[..n]) && Hex(d)[..2 * n] == Hex(d[..n]);
      HexInjective(c[..n], d[..n]);
      var p, q := HexPair(c[n]), HexPair(d[n]);
      assert Hex(c)[2 * n..] == p && Hex(d)[2 * n..] == q;
      HexPairInjective(c[n], d[n]);
      assert c == c[..n] + [c[n]] && d == d[..n] + [d[n]];
    }
  }

  /** What the server stores for a password. */
  function PasswordHash(p: string): (s: seq<S.Byte>)
    ensures |s| == 64
  {
    Hex(S.Digest(Octets(p)))
  }

  /** The loop that writes two characters for each byte of a digest. */
  method WriteHex(hash: array<S.Byte>) returns (s: seq<S.Byte>)
    requires hash.Length == 32
    ensures s == Hex(hash[..])
  {
    hide HexPair;
    s := [];
    for i := 0 to 32
      invariant s == Hex(hash[..i])
    {
      s := s + HexPair(hash[i]);
      assert hash[..i + 1][..i] == hash[..i];
    }
    assert hash[..32] == hash[..];
  }

  method HashPassword(p: string) returns (s: seq<S.Byte>)
    requires |p| < UINT32
    ensures s == PasswordHash(p)
  {
    hide S.Digest, Hex, Octets;
    var ctx := new T.Ctx();
    ctx.Update(Octets(p));
    assert ctx.Msg() == Octets(p);
    var hash := ctx.Final();
    s := WriteHex(hash);
  }

  /** A `char` as C promotes it to `int`. */
  function Promote(b: S.Byte): bv32 {
    if b < 128 then b as bv32 else 0xffff_ff00 | (b as bv32)
  }

  lemma OrZero(x: bv32, y: bv32)
    ensures x | y == 0 <==> x == 0 && y == 0
  {
  }

  lemma PromoteXor(a: S.Byte, b: S.Byte)
    ensures Promote(a) ^ Promote(b) == 0 <==> a == b
  {
  }

  /** `time_safe_compare`: visits every position whatever it finds, and gives 0
      exactly when the two texts agree at all of them. */
  method TimeSafeCompare(a: seq<S.Byte>, b: seq<S.Byte>, len: nat) returns (res: bv32)
    requires len <= |a| && len <= |b|
    ensures res == 0 <==> a[..len] == b[..len]
  {
    hide Promote;
    res := 0;
    for i := 0 to len
      invariant res == 0 <==> forall j :: 0 <= j < i ==> a[j] == b[j]
    {
      var diff := Promote(a[i]) ^ Promote(b[i]);
      PromoteXor(a[i], b[i]);
      OrZero(res, diff);
      res := res | diff;
    }
  }

  // ------------------------------------------------------------------- users

  /** The first user whose name compares equal, or the number of users. */
  function FindUser(users: seq<User>, name: string): (i: nat)
    ensures i <= |users| && (i < |users| ==> VstrSame(name, users[i].name))
    ensures forall j :: 0 <= j < i ==> !VstrSame(name, users[j].name)
  {
    if users == [] || VstrSame(name, users[0].name) then 0 else 1 + FindUser(users[1..], name)
  }

  /** A user of the configuration: name and password as written there. */
  datatype Configured = Configured(name: string, password: string)

  ghost predicate Registered(users: seq<User>, config: seq<Configured>) {
    |users| == |config|
    && (forall i :: 0 <= i < |users| ==>
      users[i].name == config[i].name && users[i].password == PasswordHash(config[i].password))
    && (forall i, j :: 0 <= i < j < |users| ==> !VstrSame(users[j].name, users[i].name))
  }

  /** `add_users`: refuses a name that is already taken. */
  method AddUsers(config: seq<Configured>) returns (ok: bool, users: seq<User>)
    requires forall i :: 0 <= i < |config| ==> |config[i].password| < UINT32
    ensures ok ==> Registered(users, config)
    ensures !ok ==> exists i, j :: 0 <= i < j < |config| && VstrSame(config[j].name, config[i].name)
  {
    hide PasswordHash, VstrSame;
    users := [];
    for k := 0 to |config|
      invariant Registered(users, config[..k])
    {
      var at := FindUser(users, config[k].name);
      if at < |users| {
        assert VstrSame(config[k].name, config[at].name);
        return false, users;
      }
      var hashed := HashPassword(config[k].password);
      users := users + [User(config[k].name, hashed)];
    }
    assert config[..|config|] == config;
    ok := true;
  }

  /** `execute_auth_command` finds no fault with these objects. */
  predicate Accepts(users: seq<User>, username: Obj, password: Obj) {
    username.Str? && password.Str? &&
    var i := FindUser(users, username.text);
    i < |users| && PasswordHash(password.text) == users[i].password
  }

  /** The steps of `execute_auth_command`. */
  method Authenticate(users: seq<User>, username: Obj, password: Obj) returns (ok: bool)
    requires forall i :: 0 <= i < |users| ==> |users[i].password| == 64
    requires password.Str? ==> |password.text| < UINT32
    ensures ok == Accepts(users, username, password)
  {
    hide PasswordHash;
    if !username.Str? || !password.Str? {
      return false;
    }
    var i := FindUser(users, username.text);
    if i == |users| {
      return false;
    }
    var hashed := HashPassword(password.text);
    var cmp := TimeSafeCompare(hashed, users[i].password, |hashed|);
    assert hashed[..64] == hashed && users[i].password[..64] == users[i].password;
    ok := cmp == 0;
  }

  /** A known user is let in exactly when the password has the digest of the
      configured one. */
  lemma AuthDecision(config: seq<Configured>, users: seq<User>, k: nat, username: Obj, password: Obj)
    requires Registered(users, config) && k < |config|
    requires username.Str? && password.Str? && username.text == config[k].name
    ensures Accepts(users, username, password) <==>
      S.Digest(Octets(password.text)) == S.Digest(Octets(config[k].password))
  {
    hide S.Digest, Octets, Hex;
    StrncmpReflexive(username.text, |username.text|);
    assert FindUser(users, username.text) == k;
    var given, stored := S.Digest(Octets(password.text)), S.Digest(Octets(config[k].password));
    if Hex(given) == Hex(stored) {
      HexInjective(given, stored);
    }
  }

  /** Nobody gets in without a known name and two texts. */
  lemma UnknownRefused(users: seq<User>, username: Obj, password: Obj)
    requires !username.Str? || !password.Str?
      || forall i :: 0 <= i < |users| ==> !VstrSame(username.text, users[i].name)
    ensures !Accepts(users, username, password)
  {
    hide PasswordHash, VstrSame;
  }

  /** The two texts are the name and, up to its digest, the password of entry `k`. */
  ghost predicate Matches(c: Configured, username: Obj, password: Obj) {
    username.Str? && password.Str? && VstrSame(username.text, c.name)
    && S.Digest(Octets(password.text)) == S.Digest(Octets(c.password))
  }

  lemma SameName(a: string, b: string, c: string)
    requires VstrSame(a, b) && VstrSame(a, c)
    ensures VstrSame(c, b)
  {
    VstrSameMeaning(a, b);
    VstrSameMeaning(a, c);
    VstrSameMeaning(c, b);
  }

  lemma HashesAgree(p: string, q: string)
    ensures PasswordHash(p) == PasswordHash(q) <==> S.Digest(Octets(p)) == S.Digest(Octets(q))
  {
    hide S.Digest, Octets, Hex;
    if PasswordHash(p) == PasswordHash(q) {
      HexInjective(S.Digest(Octets(p)), S.Digest(Octets(q)));
    }
  }

  /** Who gets in: exactly those who name a configured user and give a password with the
      digest of that user's. */
  lemma AcceptedExactly(config: seq<Configured>, users: seq<User>, username: Obj, password: Obj)
    requires Registered(users, config)
    ensures Accepts(users, username, password) <==>
      exists k :: 0 <= k < |config| && Matches(config[k], username, password)
  {
    hide PasswordHash, VstrSame, S.Digest, Octets;
    if username.Str? && password.Str? {
      var i := FindUser(users, username.text);
      if i < |users| {
        HashesAgree(password.text, config[i].password);
        forall k | 0 <= k < |config| && Matches(config[k], username, password) ensures k == i {
          SameName(username.text, config[k].name, config[i].name);
          SameName(username.text, config[i].name, config[k].name);
        }
      } else {
        assert forall k :: 0 <= k < |config| ==> !VstrSame(username.text, users[k].name);
      }
    }
  }

  lemma OctetsAre(s: string)
    requires forall i :: 0 <= i < |s| ==> s[i] as int < 256
    ensures |Octets(s)| == |s| && forall i :: 0 <= i < |s| ==> Octets(s)[i] == (s[i] as int) as S.Byte
  {
  }

  /** Texts of octets are told apart by their octets. */
  lemma OctetsInjective(s: string, t: string)
    requires (forall i :: 0 <= i < |s| ==> s[i] as int < 256) && (forall i :: 0 <= i < |t| ==> t[i] as int < 256)
    requires Octets(s) == Octets(t)
    ensures s == t
  {
    hide Octets;
    OctetsAre(s);
    OctetsAre(t);
    forall i | 0 <= i < |s| ensures s[i] == t[i] {
      assert Octets(s)[i] == Octets(t)[i];
      S.ByteBack(s[i] as int);
      S.ByteBack(t[i] as int);
    }
  }

  /** There is a user who is let in. */
  lemma SomeAccepted(name: string, password: string)
    ensures Accepts([User(name, PasswordHash(password))], Str(name), Str(password))
  {
    hide PasswordHash;
    StrncmpReflexive(name, |name|);
  }

  lemma {:induction false} StrncmpReflexive(s: string, n: nat)
    requires n <= |s|
    ensures StrncmpEqual(s, s, n)
  {
    if n > 0 {
      StrncmpReflexive(s[1..], n - 1);
    }
  }
}
