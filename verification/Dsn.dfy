/** The database connection string, and what a reader of URLs makes of it. */
module Dsn {
  import opened Wrappers
  import opened Numbers

  datatype Db = Db(host: string, port: nat, database: string, username: string, password: string)

  /** The general delimiters of section 2.2 of RFC 3986. */
  predicate Delimiter(c: char) {
    c == '@' || c == ':' || c == '/' || c == '?' || c == '#' || c == '[' || c == ']'
  }

  function EncodeChar(c: char): string {
    match c
    case '@' => "%40"
    case ':' => "%3A"
    case '/' => "%2F"
    case '?' => "%3F"
    case '#' => "%23"
    case '[' => "%5B"
    case ']' => "%5D"
    case other => [other]
  }

  function Encode(value: string): string {
    if value == [] then [] else EncodeChar(value[0]) + Encode(value[1..])
  }

  function ToUrl(db: Db): string {
    "postgres://" + Encode(db.username) + ":" + Encode(db.password) + "@" + db.host + ":" + Decimal(db.port)
    + "/" + db.database
  }

  // Reading a URL: section 3 of RFC 3986 for the components, section 2.1 for percent-decoding.

  predicate Free(s: string) {
    forall i | 0 <= i < |s| :: !Delimiter(s[i])
  }

  /** The text before the first of the stop characters, and the rest from there on. */
  function Until(s: string, stop: set<char>): (string, string) {
    if s == [] || s[0] in stop then ([], s)
    else
      var (before, rest) := Until(s[1..], stop);
      ([s[0]] + before, rest)
  }

  function HexValue(c: char): Option<nat> {
    if '0' <= c <= '9' then Some((c - '0') as nat)
    else if 'A' <= c <= 'F' then Some((c - 'A') as nat + 10)
    else if 'a' <= c <= 'f' then Some((c - 'a') as nat + 10)
    else None
  }

  predicate Triplet(s: string) {
    |s| >= 3 && s[0] == '%' && HexValue(s[1]).Some? && HexValue(s[2]).Some?
  }

  /** A percent sign that does not begin a triplet stands for itself. */
  function Decode(s: string): string {
    if s == [] then []
    else if Triplet(s) then
      [(HexValue(s[1]).value * 16 + HexValue(s[2]).value) as char] + Decode(s[3..])
    else [s[0]] + Decode(s[1..])
  }

  function Split(s: string, c: char): Option<(string, string)> {
    var (before, rest) := Until(s, {c});
    if rest == [] then None else Some((before, rest[1..]))
  }

  function ReadAuthority(authority: string, database: string): Option<Db> {
    var (userinfo, hostport) :- Split(authority, '@');
    var (user, password) :- Split(userinfo, ':');
    var (host, port) :- Split(hostport, ':');
    var number :- ParseInt(port, 0, 65535);
    Some(Db(host, number, database, Decode(user), Decode(password)))
  }

  function ReadDatabase(path: string): string {
    Until(path, {'?', '#'}).0
  }

  function ReadAfterScheme(s: string): Option<Db> {
    var (authority, rest) := Until(s, {'/', '?', '#'});
    if rest == [] || rest[0] != '/' then None
    else ReadAuthority(authority, ReadDatabase(rest[1..]))
  }

  function ReadUrl(url: string): Option<Db> {
    if "postgres://" <= url then ReadAfterScheme(url[11..]) else None
  }

  lemma {:induction false} UntilStops(s: string, rest: string, stop: set<char>)
    requires forall i | 0 <= i < |s| :: s[i] !in stop
    requires rest == [] || rest[0] in stop
    ensures Until(s + rest, stop) == (s, rest)
  {
    if s == [] {
      assert s + rest == rest;
    } else {
      assert (s + rest)[1..] == s[1..] + rest;
      UntilStops(s[1..], rest, stop);
      assert (s + rest)[0] == s[0] && s == [s[0]] + s[1..];
    }
  }

  lemma {:induction false} UntilIsFree(s: string, stop: set<char>)
    ensures forall c | c in Until(s, stop).0 :: c !in stop
  {
    if s != [] && s[0] !in stop {
      UntilIsFree(s[1..], stop);
    }
  }

  /** Encoded text never contains a delimiter. */
  lemma {:induction false} EncodedIsFree(value: string)
    ensures Free(Encode(value))
  {
    if value != [] {
      EncodedIsFree(value[1..]);
    }
  }

  function UpperHex(n: nat): char
    requires n < 16
  {
    if n < 10 then '0' + n as char else 'A' + (n - 10) as char
  }

  lemma {:induction false} EncodeConcat(a: string, b: string)
    ensures Encode(a + b) == Encode(a) + Encode(b)
  {
    if a == [] {
      assert a + b == b;
    } else {
      assert (a + b)[1..] == a[1..] + b;
      EncodeConcat(a[1..], b);
    }
  }

  function Escaped(c: char): string {
    if c in "@:/?#[]" then ['%', UpperHex(c as int / 16 % 16), UpperHex(c as int % 16)] else [c]
  }

  lemma {:induction false} EncodeOne(c: char)
    ensures Encode([c]) == Escaped(c)
  {
    assert [c][1..] == [];
    assert Encode([c]) == EncodeChar(c);
  }

  /** Wherever a delimiter stands it becomes a percent sign and its code in two upper-case hexadecimal digits;
      any other character stays. */
  lemma {:induction false} EncodesByCode(before: string, c: char, after: string)
    ensures Encode(before + [c] + after) == Encode(before) + Escaped(c) + Encode(after)
  {
    EncodeConcat(before + [c], after);
    EncodeConcat(before, [c]);
    EncodeOne(c);
  }

  ghost predicate HasTriplet(s: string) {
    exists i :: 0 <= i < |s| && Triplet(s[i..])
  }

  lemma {:induction false} HasTripletCons(s: string)
    requires s != []
    ensures HasTriplet(s) <==> Triplet(s) || HasTriplet(s[1..])
  {
    assert s[0..] == s;
    forall i | 1 <= i < |s| ensures s[i..] == s[1..][i - 1..] {
    }
    if HasTriplet(s[1..]) {
      var i :| 0 <= i < |s[1..]| && Triplet(s[1..][i..]);
      assert s[i + 1..] == s[1..][i..];
    }
  }

  /** Encoding a character that is not a delimiter leaves it alone. */
  lemma {:induction false} EncodePlain(s: string)
    requires s != [] && !Delimiter(s[0])
    ensures Encode(s) == [s[0]] + Encode(s[1..])
  {
  }

  /** Encoded text begins with a hexadecimal digit exactly when the text does. */
  lemma {:induction false} EncodeHexStart(s: string)
    ensures Encode(s) != [] && HexValue(Encode(s)[0]).Some? <==> s != [] && HexValue(s[0]).Some?
  {
  }

  /** Encoding neither makes a percent triplet at a plain character nor breaks one. */
  lemma {:induction false} EncodeKeepsTriplet(s: string)
    requires s != [] && !Delimiter(s[0])
    ensures Triplet(Encode(s)) <==> Triplet(s)
    ensures Triplet(s) ==> Encode(s) == s[..3] + Encode(s[3..])
  {
    EncodePlain(s);
    var t := s[1..];
    EncodeHexStart(t);
    if t != [] && HexValue(t[0]).Some? {
      EncodePlain(t);
      EncodeHexStart(t[1..]);
      if t[1..] != [] && HexValue(t[1]).Some? {
        EncodePlain(t[1..]);
        assert t[1..][1..] == s[3..];
        assert s[..3] == [s[0]] + ([s[1]] + [s[2]]);
        assert Encode(s) == [s[0]] + ([s[1]] + ([s[2]] + Encode(s[3..])));
      }
    }
  }

  lemma {:induction false} DecodeTriplet(high: char, low: char, rest: string)
    requires HexValue(high).Some? && HexValue(low).Some?
    ensures Decode(['%', high, low] + rest)
            == [(HexValue(high).value * 16 + HexValue(low).value) as char] + Decode(rest)
  {
    var s := ['%', high, low] + rest;
    assert s[3..] == rest;
  }

  lemma {:induction false} DecodeDelimiter(c: char, rest: string)
    requires Delimiter(c)
    ensures Decode(EncodeChar(c) + rest) == [c] + Decode(rest)
  {
    DecodeTriplet(EncodeChar(c)[1], EncodeChar(c)[2], rest);
    assert EncodeChar(c) == ['%', EncodeChar(c)[1], EncodeChar(c)[2]];
  }

  lemma {:induction false} DecodeSkips(c: char, rest: string)
    requires !Triplet([c] + rest)
    ensures Decode([c] + rest) == [c] + Decode(rest)
  {
    assert ([c] + rest)[1..] == rest;
  }

  /** Decoding undoes encoding exactly for the texts that do not already contain a percent triplet; on the
      others it loses characters. */
  lemma {:induction false} DecodeEncodeIff(s: string)
    ensures Decode(Encode(s)) == s <==> !HasTriplet(s)
    ensures |Decode(Encode(s))| <= |s|
    ensures HasTriplet(s) ==> |Decode(Encode(s))| < |s|
    decreases |s|
  {
    if s != [] {
      var t := s[1..];
      HasTripletCons(s);
      DecodeEncodeIff(t);
      assert s == [s[0]] + t;
      if Delimiter(s[0]) {
        DecodeDelimiter(s[0], Encode(t));
      } else {
        EncodeKeepsTriplet(s);
        if Triplet(s) {
          DecodeEncodeIff(s[3..]);
          DecodeTriplet(s[1], s[2], Encode(s[3..]));
          assert s[..3] == ['%', s[1], s[2]];
        } else {
          DecodeSkips(s[0], Encode(t));
        }
      }
    }
  }

  lemma {:induction false} SplitFound(before: string, c: char, after: string)
    requires c !in before
    ensures Split(before + [c] + after, c) == Some((before, after))
  {
    assert before + [c] + after == before + ([c] + after);
    UntilStops(before, [c] + after, {c});
    assert ([c] + after)[1..] == after;
  }

  lemma {:induction false} AuthorityIsFound(authority: string, database: string)
    requires '/' !in authority && '?' !in authority && '#' !in authority
    ensures ReadAfterScheme(authority + ("/" + database)) == ReadAuthority(authority, ReadDatabase(database))
  {
    UntilStops(authority, "/" + database, {'/', '?', '#'});
    assert ("/" + database)[1..] == database;
  }

  /** The database is read up to a query or a fragment, so whole exactly if it begins neither. */
  lemma {:induction false} ReadDatabaseIff(database: string)
    ensures ReadDatabase(database) == database <==> '?' !in database && '#' !in database
  {
    UntilIsFree(database, {'?', '#'});
    if '?' !in database && '#' !in database {
      assert database + [] == database;
      UntilStops(database, [], {'?', '#'});
    }
  }

  function UserInfo(db: Db): string {
    Encode(db.username) + ":" + Encode(db.password)
  }

  function HostPort(db: Db): string {
    db.host + ":" + Decimal(db.port)
  }

  function Authority(db: Db): string {
    UserInfo(db) + "@" + HostPort(db)
  }

  lemma {:induction false} DecimalIsFree(n: nat)
    ensures Free(Decimal(n))
  {
    assert forall c :: IsDigit(c) ==> !Delimiter(c);
  }

  lemma {:induction false} FreeParts(db: Db)
    requires Free(db.host)
    ensures forall c | Delimiter(c) ::
              c !in Encode(db.username) && c !in Encode(db.password) && c !in db.host && c !in Decimal(db.port)
  {
    EncodedIsFree(db.username);
    EncodedIsFree(db.password);
    DecimalIsFree(db.port);
  }

  lemma {:induction false} AuthorityEndsAtSlash(db: Db)
    requires Free(db.host)
    ensures '/' !in Authority(db) && '?' !in Authority(db) && '#' !in Authority(db)
  {
    FreeParts(db);
    assert forall c | c in UserInfo(db) :: c in Encode(db.username) || c == ':' || c in Encode(db.password);
    assert forall c | c in HostPort(db) :: c in db.host || c == ':' || c in Decimal(db.port);
    assert forall c | c in Authority(db) :: c in UserInfo(db) || c == '@' || c in HostPort(db);
  }

  /** What a reader makes of a configuration whose host is free of delimiters. */
  function AsRead(db: Db): Db {
    db.(username := Decode(Encode(db.username)), password := Decode(Encode(db.password)),
        database := ReadDatabase(db.database))
  }

  lemma {:induction false} AuthorityIsRead(db: Db)
    requires Free(db.host) && db.port <= 65535
    ensures ReadAuthority(Authority(db), ReadDatabase(db.database)) == Some(AsRead(db))
  {
    FreeParts(db);
    SplitFound(UserInfo(db), '@', HostPort(db));
    SplitFound(Encode(db.username), ':', Encode(db.password));
    SplitFound(db.host, ':', Decimal(db.port));
    ParseIntRoundTrip(db.port, 0, 65535);
  }

  lemma {:induction false} AfterSchemeIsRead(db: Db)
    requires Free(db.host) && db.port <= 65535
    ensures ReadAfterScheme(Authority(db) + ("/" + db.database)) == Some(AsRead(db))
  {
    AuthorityEndsAtSlash(db);
    AuthorityIsFound(Authority(db), db.database);
    AuthorityIsRead(db);
  }

  lemma {:induction false} AfterPrefix(prefix: string, s: string)
    ensures prefix <= prefix + s && (prefix + s)[|prefix|..] == s
  {
  }

  lemma {:induction false} Regroup(s: string, a: string, b: string, c: string)
    ensures s + a + b + c == s + (a + b + c)
  {
  }

  lemma {:induction false} UrlLayout(db: Db)
    ensures "postgres://" <= ToUrl(db) && ToUrl(db)[11..] == Authority(db) + ("/" + db.database)
  {
    var scheme := "postgres://";
    Regroup(scheme, Encode(db.username), ":", Encode(db.password));
    Regroup(scheme + UserInfo(db) + "@", db.host, ":", Decimal(db.port));
    Regroup(scheme, UserInfo(db), "@", HostPort(db));
    Regroup(scheme, Authority(db), "/", db.database);
    assert Authority(db) + "/" + db.database == Authority(db) + ("/" + db.database);
    AfterPrefix(scheme, Authority(db) + ("/" + db.database));
  }

  /** The components of the produced URL, as a URL reader finds them. */
  lemma {:induction false} ComponentsOfUrl(db: Db)
    requires Free(db.host) && db.port <= 65535
    ensures ReadUrl(ToUrl(db)) == Some(AsRead(db))
  {
    UrlLayout(db);
    AfterSchemeIsRead(db);
  }

  lemma {:induction false} TripletIsDecoded()
    ensures Decode(Encode("%41")) == "A"
  {
    EncodeKeepsTriplet("%41");
    assert "%41"[..3] == ['%', '4', '1'] && "%41"[3..] == [];
    DecodeTriplet('4', '1', []);
  }

  /** A password that spells a percent triplet comes back as the character it stands for. */
  lemma {:induction false} PercentPasswordIsLost(db: Db)
    requires Free(db.host) && db.port <= 65535 && db.password == "%41"
    ensures ReadUrl(ToUrl(db)).Some? && ReadUrl(ToUrl(db)).value.password == "A"
  {
    ComponentsOfUrl(db);
    TripletIsDecoded();
  }

  /** With a host free of delimiters, reading the produced URL gives back the configuration exactly when
      neither the user name nor the password contains a percent triplet (a text without a percent sign never
      does) and the database neither a question mark nor a number sign. */
  lemma {:induction false} UrlRoundTripIff(db: Db)
    requires Free(db.host) && db.port <= 65535
    ensures ReadUrl(ToUrl(db)) == Some(db)
            <==> !HasTriplet(db.username) && !HasTriplet(db.password) && '?' !in db.database && '#' !in db.database
    ensures '%' !in db.username && '%' !in db.password && Free(db.database) ==> ReadUrl(ToUrl(db)) == Some(db)
  {
    ComponentsOfUrl(db);
    ReadDatabaseIff(db.database);
    DecodeEncodeIff(db.username);
    DecodeEncodeIff(db.password);
    forall s: string | HasTriplet(s) ensures '%' in s {
      var i :| 0 <= i < |s| && Triplet(s[i..]);
      assert s[i] == '%';
    }
  }
}
