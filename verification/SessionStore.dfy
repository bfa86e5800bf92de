/** Sessions in the key/value store: keys and hand-written records as bytes, read back by
    offsets, and the map of sessions that they stand for. */
module SessionStore {
  import opened Text
  import opened Bytes
  import opened Uuid

  datatype Error =
    | OK
    | USERNAME_REQUIRED | USERNAME_MAX_LENGTH
    | PASSWORD_REQUIRED | PASSWORD_MIN_LENGTH | PASSWORD_MAX_LENGTH
    | LOGIN_USERNAME_EMPTY | LOGIN_PASSWORD_EMPTY | LOGIN_PASSWORD_MISMATCH
    | USER_NOT_FOUND | CRYPTO_HASH
    | DB_CONNECTION | DB_PREPARE | DB_EXECUTION
    | VALKEY_CONNECTION | VALKEY_COMMAND | VALKEY_TYPE | VALKEY_NONE_DELETED

  datatype Result<+T> = Success(value: T) | Failure(error: Error)

  const USERNAME_MAX := 60
  const PASSWORD_MIN := 8
  const PASSWORD_MAX := 60

  // ----- users

  function CheckUsername(username: Option<string>): Error {
    if username == None || CStr(username.value) == "" then USERNAME_REQUIRED
    else if |CStr(username.value)| > USERNAME_MAX then USERNAME_MAX_LENGTH
    else OK
  }

  function CheckPassword(password: Option<string>): Error {
    if password == None || CStr(password.value) == "" then PASSWORD_REQUIRED
    else if |CStr(password.value)| < PASSWORD_MIN then PASSWORD_MIN_LENGTH
    else if |CStr(password.value)| > PASSWORD_MAX then PASSWORD_MAX_LENGTH
    else OK
  }

  /** A username is accepted from 1 to 60 characters. */
  lemma UsernameIff(username: Option<string>)
    ensures CheckUsername(username) == OK <==> username.Some? && 1 <= |CStr(username.value)| <= 60
    ensures CheckUsername(username) == USERNAME_REQUIRED <==> username == None || |CStr(username.value)| == 0
    ensures CheckUsername(username) == USERNAME_MAX_LENGTH <==> username.Some? && |CStr(username.value)| > 60
  {
    hide CStr;
  }

  /** A password is accepted from 8 to 60 characters. */
  lemma PasswordIff(password: Option<string>)
    ensures CheckPassword(password) == OK <==> password.Some? && 8 <= |CStr(password.value)| <= 60
    ensures CheckPassword(password) == PASSWORD_REQUIRED <==> password == None || |CStr(password.value)| == 0
    ensures CheckPassword(password) == PASSWORD_MIN_LENGTH <==> password.Some? && 1 <= |CStr(password.value)| < 8
    ensures CheckPassword(password) == PASSWORD_MAX_LENGTH <==> password.Some? && |CStr(password.value)| > 60
  {
    hide CStr;
  }

  /** What `strnlen` says: the length of the text, if it ends before `max`. */
  method StrNLen(s: string, max: nat) returns (n: nat)
    ensures n == if |CStr(s)| < max then |CStr(s)| else max
  {
    n := 0;
    while n < max && n < |s| && s[n] != NUL
      invariant n <= |CStr(s)| && n <= max
    {
      n := n + 1;
    }
  }

  /** A hash, by the password it was made from: the salt is fixed, so nothing else goes in. */
  datatype Hash = NoHash | HashOf(password: string)

  class User {
    var id: string
    var username: string
    var password: Hash

    constructor ()
      ensures id == "" && username == "" && password == NoHash
    {
      id, username, password := "", "", NoHash;
    }

    method SetId(src: string)
      modifies this`id
      ensures id == UuidText(src)
    {
      id := UuidText(src);
    }

    method SetUsername(src: Option<string>) returns (e: Error)
      modifies this`username
      ensures e == CheckUsername(src)
      ensures username == if e == OK then CStr(src.value) else old(username)
    {
      if src == None || src.value == "" || src.value[0] == NUL {
        return USERNAME_REQUIRED;
      }
      var n := StrNLen(src.value, USERNAME_MAX + 1);
      if n > USERNAME_MAX {
        return USERNAME_MAX_LENGTH;
      }
      username := CStr(src.value);
      return OK;
    }

    /** `hashed` says whether the hash function succeeds. */
    method SetPassword(src: Option<string>, hashed: bool) returns (e: Error)
      modifies this`password
      ensures e == if CheckPassword(src) == OK && !hashed then CRYPTO_HASH else CheckPassword(src)
      ensures password == if e == OK then HashOf(CStr(src.value)) else old(password)
    {
      if src == None || src.value == "" || src.value[0] == NUL {
        return PASSWORD_REQUIRED;
      }
      var n := StrNLen(src.value, PASSWORD_MAX + 1);
      if n < PASSWORD_MIN {
        return PASSWORD_MIN_LENGTH;
      }
      if n > PASSWORD_MAX {
        return PASSWORD_MAX_LENGTH;
      }
      if !hashed {
        return CRYPTO_HASH;
      }
      password := HashOf(CStr(src.value));
      return OK;
    }

    method SetHashedPassword(hash: Hash)
      modifies this`password
      ensures password == hash
    {
      password := hash;
    }
  }

  /** Verification looks at no more than 60 bytes of what it is given. */
  predicate Verifies(stored: Hash, password: string) {
    stored == HashOf(Take(CStr(password), PASSWORD_MAX))
  }

  // ----- records and keys

  const ID_OPEN := "{\"id\":\""
  const NAME_OPEN := "\",\"username\":\""
  const CLOSE := "\"}"
  const PREFIX := "rp-ses:"

  function Record(id: string, username: string): string {
    ID_OPEN + id + NAME_OPEN + username + CLOSE
  }

  /** The record as text. */
  lemma RecordIs(id: string, username: string)
    ensures Record(id, username) == "{\"id\":\"" + id + "\",\"username\":\"" + username + "\"}"
  {
  }

  function KeyOf(sid: string): string {
    PREFIX + UuidText(sid)
  }

  ghost predicate IsId(s: string) {
    |s| == SIZE && NulFree(s)
  }

  ghost predicate IsUsername(s: string) {
    1 <= |s| <= USERNAME_MAX && NulFree(s)
  }

  /** Whole ids have keys of their own, and only they have them. */
  lemma KeysDistinct(sid: string, other: string)
    requires IsId(sid)
    ensures KeyOf(sid) == KeyOf(other) <==> UuidText(other) == sid
  {
    IdText(sid);
    assert KeyOf(sid)[|PREFIX|..] == UuidText(sid) && KeyOf(other)[|PREFIX|..] == UuidText(other);
  }

  lemma KeyIs(sid: string)
    requires IsId(sid)
    ensures KeyOf(sid) == "rp-ses:" + sid
  {
    IdText(sid);
  }

  lemma IdText(sid: string)
    requires IsId(sid)
    ensures UuidText(sid) == sid
  {
    WholeId(sid, "");
    assert sid + "" == sid;
  }

  /** A NUL two before the end of a record leaves the id and the username at their offsets. */
  lemma CutRecord(open: string, id: string, middle: string, name: string)
    ensures
      var json := open + id + middle + name + CLOSE;
      var cut := json[|json| - 2 := NUL];
      && cut[|open| + |middle| + |id|..] == name + [NUL, '}']
      && cut[|open|..] == id + (middle + name + [NUL, '}'])
  {
    var json := open + id + middle + name + CLOSE;
    var cut := json[|json| - 2 := NUL];
    assert cut == open + id + middle + name + [NUL, '}'];
  }

  /** What is read at the offset of the id, and at the offset of the username once a NUL has
      replaced the character two before the end: exactly what was written, whatever quotes and
      backslashes the username holds. */
  lemma RecordRoundTrip(id: string, username: string)
    requires IsId(id) && NulFree(username)
    ensures
      var json := Record(id, username);
      var cut := json[|json| - 2 := NUL];
      && |cut| >= |ID_OPEN| + SIZE + |NAME_OPEN|
      && CStr(cut[|ID_OPEN| + |NAME_OPEN| + SIZE..]) == username
      && UuidText(cut[|ID_OPEN|..]) == id
  {
    hide CStr, UuidText;
    CutRecord(ID_OPEN, id, NAME_OPEN, username);
    var tail := username + [NUL, '}'];
    assert tail[..|username|] == username;
    CStrIs(tail, |username|);
    WholeId(id, NAME_OPEN + username + [NUL, '}']);
  }

  // ----- the store

  datatype Entry = Entry(value: string, deadline: nat)

  const EXPIRY := 3600

  /** How a command fares: it is served; the server answers with an error; no answer comes,
      and the command may have been applied or not; or there is no connection to send it on. */
  datatype Reach = Served | Refused | NoReply(applied: bool) | Unreached

  /** Has the command taken effect at the server? */
  predicate Applied(reach: Reach) {
    reach == Served || reach == NoReply(true)
  }

  /** The key/value server: every entry has a deadline and is gone once it is reached. */
  class Valkey {
    var entries: map<string, Entry>
    var now: nat

    predicate Has(key: string)
      reads this
    {
      key in entries && now < entries[key].deadline
    }

    constructor ()
      ensures entries == map[] && now == 0
    {
      entries, now := map[], 0;
    }

    /** `get_client` */
    method GetClient(reach: Reach) returns (e: Error)
      ensures e == if reach == Unreached then VALKEY_CONNECTION else OK
    {
      return if reach == Unreached then VALKEY_CONNECTION else OK;
    }

    /** An answer of any kind is taken for success. */
    method SetString(key: string, value: string, expiry: nat, reach: Reach) returns (e: Error)
      requires reach != Unreached
      modifies this`entries
      ensures e == if reach.NoReply? then VALKEY_COMMAND else OK
      ensures entries ==
                if Applied(reach) then old(entries)[CStr(key) := Entry(CStr(value), now + expiry)] else old(entries)
    {
      if Applied(reach) {
        entries := entries[CStr(key) := Entry(CStr(value), now + expiry)];
      }
      return if reach.NoReply? then VALKEY_COMMAND else OK;
    }

    method GetString(key: string, reach: Reach) returns (r: Result<string>)
      requires reach != Unreached
      ensures r == if reach.NoReply? then Failure(VALKEY_COMMAND)
                   else if reach == Served && Has(CStr(key)) then Success(entries[CStr(key)].value)
                   else Failure(VALKEY_TYPE)
    {
      if reach.NoReply? {
        return Failure(VALKEY_COMMAND);
      }
      if reach == Refused || !Has(CStr(key)) {
        return Failure(VALKEY_TYPE);
      }
      return Success(entries[CStr(key)].value);
    }

    method Remove(key: string, reach: Reach) returns (e: Error)
      requires reach != Unreached
      modifies this`entries
      ensures e == if reach.NoReply? then VALKEY_COMMAND
                   else if reach == Served && old(Has(CStr(key))) then OK else VALKEY_NONE_DELETED
      ensures entries ==
                if Applied(reach) && old(Has(CStr(key))) then old(entries) - {CStr(key)} else old(entries)
    {
      var removed := Applied(reach) && Has(CStr(key));
      if removed {
        entries := entries - {CStr(key)};
      }
      if reach.NoReply? {
        return VALKEY_COMMAND;
      }
      return if removed then OK else VALKEY_NONE_DELETED;
    }

    method Tick(d: nat)
      modifies this`now
      ensures now == old(now) + d
    {
      now := now + d;
    }
  }

  // ----- the sessions the entries stand for

  datatype Person = Person(id: string, username: string)

  datatype Session = Session(person: Person, deadline: nat)

  type Sessions = map<string, Session>

  ghost predicate GoodSession(sid: string, s: Session) {
    IsId(sid) && IsId(s.person.id) && IsUsername(s.person.username)
  }

  function EntryOf(s: Session): Entry {
    Entry(Record(s.person.id, s.person.username), s.deadline)
  }

  /** The string store holds the record of every session under its key, and nothing else. */
  ghost predicate Refines(entries: map<string, Entry>, sessions: Sessions) {
    && (forall sid {:trigger KeyOf(sid)} {:trigger sessions[sid]} :: sid in sessions ==>
          && GoodSession(sid, sessions[sid])
          && KeyOf(sid) in entries && entries[KeyOf(sid)] == EntryOf(sessions[sid]))
    && (forall key :: key in entries ==> HasSession(sessions, key))
  }

  ghost predicate HasSession(sessions: Sessions, key: string) {
    exists sid :: sid in sessions && KeyOf(sid) == key
  }

  lemma RefinesSet(entries: map<string, Entry>, sessions: Sessions, sid: string, s: Session)
    requires Refines(entries, sessions) && GoodSession(sid, s)
    ensures Refines(entries[KeyOf(sid) := EntryOf(s)], sessions[sid := s])
  {
    hide KeyOf;
    var sessions' := sessions[sid := s];
    forall other | other in sessions && other != sid ensures KeyOf(other) != KeyOf(sid) {
      IdText(other);
      KeysDistinct(sid, other);
    }
    forall key | key in entries[KeyOf(sid) := EntryOf(s)] ensures HasSession(sessions', key) {
      if key == KeyOf(sid) {
        assert sid in sessions';
      } else {
        var other :| other in sessions && KeyOf(other) == key;
        assert other in sessions';
      }
    }
  }

  lemma RefinesRemove(entries: map<string, Entry>, sessions: Sessions, sid: string)
    requires Refines(entries, sessions)
    ensures Refines(entries - {KeyOf(sid)}, sessions - {UuidText(sid)})
  {
    hide KeyOf, UuidText;
    var sessions' := sessions - {UuidText(sid)};
    forall other | other in sessions ensures KeyOf(other) == KeyOf(sid) <==> other == UuidText(sid) {
      KeysDistinct(other, sid);
    }
    forall key | key in entries - {KeyOf(sid)} ensures HasSession(sessions', key) {
      var other :| other in sessions && KeyOf(other) == key;
      assert other in sessions';
    }
  }

  /** An entry is there under the key of an id exactly when a session is. */
  lemma RefinesHas(entries: map<string, Entry>, sessions: Sessions, sid: string)
    requires Refines(entries, sessions)
    ensures KeyOf(sid) in entries <==> UuidText(sid) in sessions
    ensures UuidText(sid) in sessions ==> entries[KeyOf(sid)] == EntryOf(sessions[UuidText(sid)])
  {
    hide KeyOf, UuidText;
    forall other | other in sessions ensures KeyOf(other) == KeyOf(sid) <==> other == UuidText(sid) {
      KeysDistinct(other, sid);
    }
    if KeyOf(sid) in entries {
      assert HasSession(sessions, KeyOf(sid));
    }
  }

  predicate IsLive(sessions: Sessions, sid: string, now: nat) {
    sid in sessions && now < sessions[sid].deadline
  }

  /** What the caller of each operation is told. A refused write passes for a success. */
  function SetAnswer(sid: string, reach: Reach): Result<string> {
    match reach
    case Unreached => Failure(VALKEY_CONNECTION)
    case NoReply(_) => Failure(VALKEY_COMMAND)
    case _ => Success(sid)
  }

  function GetError(reach: Reach): Error {
    match reach
    case Unreached => VALKEY_CONNECTION
    case NoReply(_) => VALKEY_COMMAND
    case _ => VALKEY_TYPE
  }

  function RemoveError(live: bool, reach: Reach): Error {
    match reach
    case Unreached => VALKEY_CONNECTION
    case NoReply(_) => VALKEY_COMMAND
    case Refused => VALKEY_NONE_DELETED
    case Served => if live then OK else VALKEY_NONE_DELETED
  }

  /** The repository of sessions over the store. `sessions` is what the entries stand for. */
  class SessionValkey {
    const client: Valkey
    ghost var sessions: Sessions

    ghost predicate Valid()
      reads this, client
    {
      Refines(client.entries, sessions)
    }

    constructor ()
      ensures Valid() && fresh(client) && sessions == map[] && client.now == 0
    {
      client := new Valkey();
      sessions := map[];
    }

    /** The key buffer: the prefix, then the id, in zeroed memory. */
    method MakeKey(sid: string) returns (key: string)
      ensures CStr(key) == KeyOf(sid)
    {
      var buf := new char[|PREFIX| + SIZE + 1](_ => NUL);
      FillKey(buf, sid);
      key := buf[..];
    }

    method FillKey(buf: array<char>, sid: string)
      requires buf.Length == |PREFIX| + SIZE + 1 && buf[|PREFIX| + SIZE] == NUL
      modifies buf
      ensures CStr(buf[..]) == KeyOf(sid)
    {
      hide CStr, StrNCpy, UuidText, Take, KeyOf;
      ghost var zeros := buf[..];
      CopyInto(buf, 0, PREFIX, |PREFIX|);
      ghost var half := buf[..];
      CopyInto(buf, |PREFIX|, sid, SIZE);
      TwoCopies(zeros, half, buf[..], StrNCpy(PREFIX, |PREFIX|), StrNCpy(sid, SIZE));
      KeyBuffer(sid, buf[..]);
    }

    /** `set_session_impl`; `sid` is the id that was generated. */
    method SetSession(user: User, sid: string, reach: Reach) returns (r: Result<string>)
      requires Valid() && IsId(sid) && IsId(user.id) && IsUsername(user.username)
      modifies this, client`entries
      ensures Valid()
      ensures r == SetAnswer(sid, reach)
      ensures sessions ==
                if Applied(reach)
                then old(sessions)[sid := SessionOf(user)]
                else old(sessions)
    {
      hide Refines, CStr, UuidText, Record, NulFree;
      var e := client.GetClient(reach);
      if e != OK {
        return Failure(e);
      }
      var json := Encode(user);
      var key := MakeKey(sid);
      e := client.SetString(key, json, EXPIRY, reach);

      IdText(sid);
      RefinesSet(old(client.entries), sessions, sid, SessionOf(user));
      if Applied(reach) {
        assert client.entries == old(client.entries)[KeyOf(sid) := EntryOf(SessionOf(user))];
        sessions := sessions[sid := SessionOf(user)];
      }
      return if e != OK then Failure(e) else Success(sid);
    }

    ghost function SessionOf(user: User): Session
      reads client, user
    {
      Session(Person(user.id, user.username), client.now + EXPIRY)
    }

    /** The record of a user, written piece by piece. */
    method Encode(user: User) returns (json: string)
      requires NulFree(user.id) && NulFree(user.username)
      ensures json == CStr(json) == Record(user.id, user.username)
    {
      json := "";
      json := json + ID_OPEN;
      json := json + user.id;
      json := json + NAME_OPEN;
      json := json + user.username;
      json := json + CLOSE;
      RecordText(user.id, user.username);
      assert json == Record(user.id, user.username);
    }

    /** `get_user_impl` */
    method GetUser(sid: string, reach: Reach) returns (r: Result<User>)
      requires Valid()
      ensures r.Success? <==> reach == Served && IsLive(sessions, UuidText(sid), client.now)
      ensures r.Success? ==>
                Person(r.value.id, r.value.username) == sessions[UuidText(sid)].person && fresh(r.value)
      ensures r.Failure? ==> r.error == GetError(reach)
    {
      var e := client.GetClient(reach);
      if e != OK {
        return Failure(e);
      }
      var key := MakeKey(sid);
      var got := client.GetString(key, reach);
      RefinesHas(client.entries, sessions, sid);
      if got.Failure? {
        return Failure(got.error);
      }
      var user := new User();
      ghost var person := sessions[UuidText(sid)].person;
      e := Decode(got.value, user, person);
      return Success(user);
    }

    /** What `get_user_impl` makes of a record. */
    method Decode(record: string, user: User, ghost person: Person) returns (e: Error)
      requires IsId(person.id) && IsUsername(person.username) && record == Record(person.id, person.username)
      modifies user
      ensures e == OK && user.id == person.id && user.username == person.username
    {
      RecordRoundTrip(person.id, person.username);
      IsText(person.username);
      var json := record[|record| - 2 := NUL];
      e := user.SetUsername(Some(json[|ID_OPEN| + |NAME_OPEN| + SIZE..]));
      if e != OK {
        return e;
      }
      user.SetId(json[|ID_OPEN|..]);
    }

    /** `remove_session_impl` */
    method RemoveSession(sid: string, reach: Reach) returns (e: Error)
      requires Valid()
      modifies this, client`entries
      ensures Valid()
      ensures e == RemoveError(IsLive(old(sessions), UuidText(sid), client.now), reach)
      ensures sessions ==
                if Applied(reach) && IsLive(old(sessions), UuidText(sid), client.now)
                then old(sessions) - {UuidText(sid)} else old(sessions)
    {
      hide Refines, CStr, UuidText;
      e := client.GetClient(reach);
      if e != OK {
        return e;
      }
      var key := MakeKey(sid);
      RefinesHas(client.entries, sessions, sid);
      RefinesRemove(client.entries, sessions, sid);
      ghost var live := IsLive(sessions, UuidText(sid), client.now);
      e := client.Remove(key, reach);
      if Applied(reach) && live {
        sessions := sessions - {UuidText(sid)};
      }
    }
  }

  lemma IsText(s: string)
    requires NulFree(s)
    ensures CStr(s) == s
  {
    CStrIs(s, |s|);
  }

  lemma RecordText(id: string, username: string)
    requires NulFree(id) && NulFree(username)
    ensures CStr(Record(id, username)) == Record(id, username)
  {
    CStrIs(Record(id, username), |Record(id, username)|);
  }

  /** Two copies one behind the other leave the last byte as it was. */
  lemma TwoCopies(zeros: string, half: string, full: string, a: string, b: string)
    requires |zeros| == |a| + |b| + 1 && zeros[|a| + |b|] == NUL
    requires half == zeros[..0] + a + zeros[|a|..]
    requires full == half[..|a|] + b + half[|a| + |b|..]
    ensures full == a + b + [NUL]
  {
    assert half[..|a|] == a;
    assert half[|a| + |b|] == zeros[|a| + |b|];
    assert half[|a| + |b|..] == [NUL];
  }

  lemma PrefixCopied()
    ensures StrNCpy(PREFIX, |PREFIX|) == PREFIX
  {
    CStrIs(PREFIX, |PREFIX|);
    assert PREFIX[..|PREFIX|] == PREFIX;
  }

  lemma KeyBuffer(sid: string, key: string)
    requires key == StrNCpy(PREFIX, |PREFIX|) + StrNCpy(sid, SIZE) + [NUL]
    ensures CStr(key) == KeyOf(sid)
  {
    hide CStr, StrNCpy, Take;
    PrefixCopied();
    StrNCpyText(sid, SIZE, [NUL]);
    var rest := StrNCpy(sid, SIZE) + [NUL];
    assert key == PREFIX + rest;
    CStrPrefix(PREFIX, rest);
  }
}
