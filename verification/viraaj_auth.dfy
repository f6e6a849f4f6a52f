/** server/viraaj-auth.ts: authentication over `users.txt`, an append-only
    text log. Registration appends a `USER_DATA:` line and a `REGISTRATION:`
    line, a login appends a `LOGIN:` line, and a user is found again by
    scanning the lines for a `USER_DATA:` line that mentions the email.
    Timestamps, fresh ids, device ids and password hashes are given. */
module ViraajAuth {
  import opened Common

  /** The fields a `USER_DATA:` line stores (the dates are not read back). */
  datatype ViraajUser = ViraajUser(id: string, name: string, email: string, password: string, deviceId: string)

  const Marker := "USER_DATA:"

  /** How a `USER_DATA:` line is matched against the searched email: as the
      source does, by substring anywhere in the line, or exactly against the
      line's email field. */
  datatype Matching = Substring | Exact

  /** What scanning one line gives: keep going, a user, or a thrown
      `TypeError` (which `findUserByEmail` turns into `null`). */
  datatype LineResult = Skip | Found(user: ViraajUser) | Throws

  function InitLine(stamp: string): string {
    "[" + stamp + "] VIRAAJDATA AUTH INITIALIZED"
  }

  /** The text before the id on a `USER_DATA:` line. */
  function UserDataPrefix(stamp: string): string {
    "[" + stamp + "] " + Marker
  }

  /** The `|`-separated fields of `saveUser`'s line. */
  function UserDataFields(stamp: string, u: ViraajUser): seq<string> {
    [UserDataPrefix(stamp) + u.id, u.name, u.email, u.password, u.deviceId, "PERMANENT"]
  }

  /** `saveUser`'s line, without its newline. */
  function UserDataLine(stamp: string, u: ViraajUser): string {
    Join(UserDataFields(stamp, u), "|")
  }

  /** How the registration and login lines record a device. */
  function DeviceTag(deviceId: string): string {
    "DEVICE:" + deviceId
  }

  function RegistrationLine(stamp: string, u: ViraajUser): string {
    "[" + stamp + "] REGISTRATION: " + u.id + "|" + u.name + "|" + u.email + "|" + DeviceTag(u.deviceId) + "|SUCCESS"
  }

  function LoginLine(stamp: string, u: ViraajUser): string {
    "[" + stamp + "] LOGIN: " + u.id + "|" + u.email + "|" + DeviceTag(u.deviceId) + "|SUCCESS"
  }

  /** `s.split(t)[1]` for a non-empty `t`: the text between the first and
      the second occurrence of `t` (or the end); undefined, when `t` does not
      occur, is `None`. */
  function SecondPiece(s: string, t: string): (r: Option<string>)
    requires t != []
    ensures r.None? <==> FindFrom(s, t).None?
  {
    match FindFrom(s, t)
    case None => None
    case Some(i) =>
      var rest := s[i + |t|..];
      match FindFrom(rest, t)
      case None => Some(rest)
      case Some(j) => Some(rest[..j])
  }

  /** One line of the scan in `findUserByEmail`: a line that contains
      `USER_DATA:` and the email and has at least four `|` parts is read as
      a user (an empty name reads as `User`, a missing device id as `""`);
      when its first part lacks `USER_DATA:` the read throws. */
  function ParseLine(m: Matching, line: string, email: string): (r: LineResult)
    ensures r.Found? ==> Contains(line, Marker) && Contains(line, email) && r.user.name != []
    ensures r.Found? && m == Exact ==> r.user.email == email
    ensures !Contains(line, Marker) || !Contains(line, email) ==> r == Skip
  {
    if Contains(line, Marker) && Contains(line, email) then
      var parts := Split(line, '|');
      if |parts| >= 4 then
        match SecondPiece(parts[0], Marker)
        case None => Throws
        case Some(userData) =>
          var u := ViraajUser(Trim(userData), if parts[1] == [] then "User" else parts[1], parts[2], parts[3],
                              if |parts| > 4 then parts[4] else "");
          if m == Exact && u.email != email then Skip else Found(u)
      else Skip
    else Skip
  }

  /** The scan over the lines: the first line that yields a user or throws
      decides; a throw reads as no user. */
  function FindIn(m: Matching, lines: seq<string>, email: string): (r: Option<ViraajUser>)
    ensures r.Some? ==> exists i :: 0 <= i < |lines| && ParseLine(m, lines[i], email) == Found(r.value)
  {
    if lines == [] then None
    else match ParseLine(m, lines[0], email)
      case Skip =>
        var r := FindIn(m, lines[1..], email);
        assert r.Some? ==> exists i :: 1 <= i < |lines| && ParseLine(m, lines[i], email) == Found(r.value) by {
          if r.Some? {
            var i :| 0 <= i < |lines[1..]| && ParseLine(m, lines[1..][i], email) == Found(r.value);
            assert lines[i + 1] == lines[1..][i];
          }
        }
        r
      case Found(u) => Some(u)
      case Throws => None
  }

  /** Every line of `lines` is passed over. */
  predicate NoMatch(m: Matching, lines: seq<string>, email: string) {
    forall i :: 0 <= i < |lines| ==> ParseLine(m, lines[i], email) == Skip
  }

  /** Lines that are passed over do not change the outcome of the scan. */
  lemma {:induction false} FindInAfter(m: Matching, xs: seq<string>, ys: seq<string>, email: string)
    requires NoMatch(m, xs, email)
    ensures FindIn(m, xs + ys, email) == FindIn(m, ys, email)
  {
    if xs != [] {
      assert xs + ys == [xs[0]] + (xs[1..] + ys);
      FindInSkip(m, xs[0], xs[1..] + ys, email);
      assert NoMatch(m, xs[1..], email) by {
        forall i | 0 <= i < |xs| - 1
          ensures ParseLine(m, xs[1..][i], email) == Skip
        {
          assert xs[1..][i] == xs[i + 1];
        }
      }
      FindInAfter(m, xs[1..], ys, email);
    } else {
      assert xs + ys == ys;
    }
  }

  lemma FindInSkip(m: Matching, x: string, rest: seq<string>, email: string)
    requires ParseLine(m, x, email) == Skip
    ensures FindIn(m, [x] + rest, email) == FindIn(m, rest, email)
  {
    assert ([x] + rest)[0] == x && ([x] + rest)[1..] == rest;
  }

  /** The fields `saveUser` can write so that they read back: no `|` or
      newline in any field, a non-empty name, and an id that `trim` keeps
      and that does not itself hold `USER_DATA:`. */
  predicate Storable(u: ViraajUser) {
    && '|' !in u.id && '|' !in u.name && '|' !in u.email && '|' !in u.password && '|' !in u.deviceId
    && '\n' !in u.id && '\n' !in u.name && '\n' !in u.email && '\n' !in u.password && '\n' !in u.deviceId
    && u.name != [] && Trim(u.id) == u.id && !Contains(u.id, Marker)
  }

  /** An ISO timestamp has no `|`, no newline and no `U`. */
  predicate StampOk(stamp: string) {
    '|' !in stamp && '\n' !in stamp && 'U' !in stamp
  }

  /** The first field is the stamp, the marker and the id, with the marker
      found first. */
  lemma UserDataPrefixParts(stamp: string, id: string)
    requires StampOk(stamp)
    ensures var pre := "[" + stamp + "] ";
            && UserDataPrefix(stamp) + id == pre + Marker + id
            && '|' !in pre && '\n' !in pre && 'U' !in pre
            && '|' !in Marker && '\n' !in Marker
  {
  }

  /** No field of a storable user's line holds `|` or a newline. */
  lemma UserDataFieldsFree(stamp: string, u: ViraajUser)
    requires StampOk(stamp) && Storable(u)
    ensures forall i :: 0 <= i < |UserDataFields(stamp, u)| ==>
              '|' !in UserDataFields(stamp, u)[i] && '\n' !in UserDataFields(stamp, u)[i]
  {
    UserDataPrefixParts(stamp, u.id);
    var fields := UserDataFields(stamp, u);
    assert fields[0] == "[" + stamp + "] " + Marker + u.id;
    assert '|' !in "PERMANENT" && '\n' !in "PERMANENT";
  }

  /** The `|` parts of a user line are its six fields, and the line has no
      newline. */
  lemma UserDataLineParts(stamp: string, u: ViraajUser)
    requires StampOk(stamp) && Storable(u)
    ensures Split(UserDataLine(stamp, u), '|') == UserDataFields(stamp, u)
    ensures '\n' !in UserDataLine(stamp, u)
  {
    UserDataFieldsFree(stamp, u);
    SplitJoin(UserDataFields(stamp, u), '|');
    JoinFree(UserDataFields(stamp, u), "|", '\n');
  }

  /** The text after `USER_DATA:` in the first field of a user line is the
      id. */
  lemma UserDataId(stamp: string, id: string)
    requires StampOk(stamp) && !Contains(id, Marker)
    ensures SecondPiece(UserDataPrefix(stamp) + id, Marker) == Some(id)
  {
    var pre := "[" + stamp + "] ";
    var s := UserDataPrefix(stamp) + id;
    UserDataPrefixParts(stamp, id);
    ConcatParts(pre, Marker, id);
    forall p | 0 <= p < |pre|
      ensures !OccursAt(s, Marker, p)
    {
      assert s[p] == pre[p];
    }
    FindFromFirst(s, Marker, |pre|);
    assert s[|pre| + |Marker|..] == id;
    if FindFrom(id, Marker).Some? {
      ContainsAt(id, Marker, FindFrom(id, Marker).value);
    }
  }

  /** A user line mentioning the searched email is read back as the user it
      was written for; exact matching also demands the email field be the
      searched one. */
  lemma UserDataParsed(m: Matching, stamp: string, u: ViraajUser, email: string)
    requires StampOk(stamp) && Storable(u)
    requires Contains(u.email, email)
    ensures ParseLine(m, UserDataLine(stamp, u), email) == if m == Exact && u.email != email then Skip else Found(u)
  {
    var fields := UserDataFields(stamp, u);
    var line := UserDataLine(stamp, u);
    UserDataPrefixParts(stamp, u.id);
    ConcatParts("[" + stamp + "] ", Marker, u.id);
    ContainsAt(fields[0], Marker, |"[" + stamp + "] "|);
    JoinContainsPart(fields, "|", 0, Marker);
    JoinContainsPart(fields, "|", 2, email);
    UserDataLineParts(stamp, u);
    UserDataId(stamp, u.id);
  }

  /** A user line is read back, under either matching, as the user it was
      written for. */
  lemma UserDataRoundTrip(m: Matching, stamp: string, u: ViraajUser)
    requires StampOk(stamp) && Storable(u)
    ensures ParseLine(m, UserDataLine(stamp, u), u.email) == Found(u)
  {
    ContainsAt(u.email, u.email, 0);
    UserDataParsed(m, stamp, u, u.email);
  }

  /** Appending a line and its newline to a text that ends in a newline:
      the lines before the final empty one, then the new line, then the
      lines of what follows. */
  lemma AppendedLines(before: string, line: string, rest: string)
    requires EndsWith(before, "\n") && '\n' !in line
    ensures var b0 := before[..|before| - 1];
            && Split(before, '\n') == Split(b0, '\n') + [""]
            && Split(before + line + "\n" + rest, '\n') == Split(b0, '\n') + ([line] + Split(rest, '\n'))
  {
    var b0 := before[..|before| - 1];
    assert before == b0 + ['\n'] by {
      assert before[|before| - 1..] == "\n";
    }
    assert before == b0 + ['\n'] + [];
    SplitConcat(b0, [], '\n');
    assert before + line + "\n" + rest == b0 + ['\n'] + (line + ['\n'] + rest);
    SplitConcat(b0, line + ['\n'] + rest, '\n');
    SplitFirstPart(line, rest, '\n');
  }

  /** A line that yields a user, after lines that are all passed over,
      decides the scan. */
  lemma FoundAfterSkipped(m: Matching, skipped: seq<string>, line: string, rest: seq<string>,
                          email: string, u: ViraajUser)
    requires NoMatch(m, skipped, email) && ParseLine(m, line, email) == Found(u)
    ensures FindIn(m, skipped + ([line] + rest), email) == Some(u)
  {
    FindInAfter(m, skipped, [line] + rest, email);
    assert ([line] + rest)[0] == line;
  }

  lemma NoMatchPrefix(m: Matching, xs: seq<string>, ys: seq<string>, email: string)
    requires NoMatch(m, xs + ys, email)
    ensures NoMatch(m, xs, email)
  {
    forall i | 0 <= i < |xs|
      ensures ParseLine(m, xs[i], email) == Skip
    {
      assert xs[i] == (xs + ys)[i];
    }
  }

  /** Round trip over the log: after registering `u` on a file ending in a
      newline where no line matches its email yet, the scan finds `u`. */
  lemma RegisteredUserFound(m: Matching, before: string, stamp: string, stamp2: string, u: ViraajUser)
    requires StampOk(stamp) && Storable(u)
    requires EndsWith(before, "\n")
    requires NoMatch(m, Split(before, '\n'), u.email)
    ensures FindIn(m, Split(before + UserDataLine(stamp, u) + "\n" + RegistrationLine(stamp2, u) + "\n", '\n'), u.email)
            == Some(u)
  {
    var ud := UserDataLine(stamp, u);
    var tail := RegistrationLine(stamp2, u) + "\n";
    assert before + ud + "\n" + RegistrationLine(stamp2, u) + "\n" == before + ud + "\n" + tail;
    UserDataLineParts(stamp, u);
    AppendedLines(before, ud, tail);
    var lines := Split(before[..|before| - 1], '\n');
    NoMatchPrefix(m, lines, [""], u.email);
    UserDataRoundTrip(m, stamp, u);
    FoundAfterSkipped(m, lines, ud, Split(tail, '\n'), u.email, u);
  }

  /** As written, the scan matches the email as a substring of the line:
      searching for a proper part of a stored email (`b@x.io` inside
      `ab@x.io`) finds the other user. */
  lemma LongerEmailMatches(stamp: string, u: ViraajUser, email: string, k: nat)
    requires StampOk(stamp) && Storable(u)
    requires OccursAt(u.email, email, k) && email != u.email
    ensures FindIn(Substring, [UserDataLine(stamp, u)], email) == Some(u) && u.email != email
  {
    ContainsAt(u.email, email, k);
    UserDataParsed(Substring, stamp, u, email);
  }

  /** Corrected, the email field must equal the searched email: whatever
      the scan finds has exactly that email ... */
  lemma ExactEmailOnly(lines: seq<string>, email: string)
    ensures FindIn(Exact, lines, email).Some? ==> FindIn(Exact, lines, email).value.email == email
  {
  }

  /** ... so a proper part of a stored email no longer finds that user. */
  lemma ShorterEmailNotFound(stamp: string, u: ViraajUser, email: string, k: nat)
    requires StampOk(stamp) && Storable(u)
    requires OccursAt(u.email, email, k) && email != u.email
    ensures FindIn(Exact, [UserDataLine(stamp, u)], email) == None
  {
    ContainsAt(u.email, email, k);
    UserDataParsed(Exact, stamp, u, email);
    FindInSkip(Exact, UserDataLine(stamp, u), [], email);
    assert [UserDataLine(stamp, u)] + [] == [UserDataLine(stamp, u)];
  }

  /** After a registration the device it came from is remembered. */
  lemma RegisteredDeviceRemembered(before: string, stamp: string, u: ViraajUser)
    ensures Contains(before + UserDataLine(stamp, u) + "\n" + RegistrationLine(stamp, u) + "\n", DeviceTag(u.deviceId))
  {
    var pre := "[" + stamp + "] REGISTRATION: " + u.id + "|" + u.name + "|" + u.email + "|";
    var line := RegistrationLine(stamp, u);
    assert line == pre + DeviceTag(u.deviceId) + "|SUCCESS";
    ConcatParts(pre, DeviceTag(u.deviceId), "|SUCCESS");
    ContainsAt(line, DeviceTag(u.deviceId), |pre|);
    ContainsRight(before + UserDataLine(stamp, u) + "\n", line, DeviceTag(u.deviceId));
    ContainsLeft(before + UserDataLine(stamp, u) + "\n" + line, "\n", DeviceTag(u.deviceId));
  }

  /** After a login the device it came from is remembered. */
  lemma LoggedInDeviceRemembered(before: string, stamp: string, u: ViraajUser)
    ensures Contains(before + LoginLine(stamp, u) + "\n", DeviceTag(u.deviceId))
  {
    var pre := "[" + stamp + "] LOGIN: " + u.id + "|" + u.email + "|";
    var line := LoginLine(stamp, u);
    assert line == pre + DeviceTag(u.deviceId) + "|SUCCESS";
    ConcatParts(pre, DeviceTag(u.deviceId), "|SUCCESS");
    ContainsAt(line, DeviceTag(u.deviceId), |pre|);
    ContainsRight(before, line, DeviceTag(u.deviceId));
    ContainsLeft(before + line, "\n", DeviceTag(u.deviceId));
  }

  /** The check is by substring: every non-empty prefix of a remembered
      device id is remembered too. */
  lemma DevicePrefixRemembered(text: string, deviceId: string, n: nat)
    requires Contains(text, DeviceTag(deviceId)) && n <= |deviceId|
    ensures Contains(text, DeviceTag(deviceId[..n]))
  {
    var i :| 0 <= i <= |text| - |DeviceTag(deviceId)| && OccursAt(text, DeviceTag(deviceId), i);
    assert DeviceTag(deviceId)[..|DeviceTag(deviceId[..n])|] == DeviceTag(deviceId[..n]);
    assert text[i..i + |DeviceTag(deviceId[..n])|] == DeviceTag(deviceId)[..|DeviceTag(deviceId[..n])|];
    ContainsAt(text, DeviceTag(deviceId[..n]), i);
  }

  /** What the register and login routes reply. */
  datatype AuthReply =
    | BadRequest(error: string)     // status 400
    | Unauthorized(error: string)   // status 401
    | SignedIn(id: string, name: string, email: string)

  class UsersFile {
    /** The whole text of `users.txt`. */
    var text: string
    /** `sha256(password)` as hex. */
    const hash: string -> string

    /** `initialize`: an existing file is kept, a missing one is created with
        the initialisation line. */
    constructor (existing: Option<string>, stamp: string, hash: string -> string)
      ensures existing.Some? ==> text == existing.value
      ensures existing.None? ==> text == InitLine(stamp) + "\n"
      ensures this.hash == hash
    {
      text := if existing.Some? then existing.value else InitLine(stamp) + "\n";
      this.hash := hash;
    }

    /** `findUserByEmail`: the loop over the lines of the file. */
    method FindUserByEmail(m: Matching, email: string) returns (r: Option<ViraajUser>)
      ensures r == FindIn(m, Split(text, '\n'), email)
    {
      var lines := Split(text, '\n');
      for i := 0 to |lines|
        invariant FindIn(m, lines[i..], email) == FindIn(m, lines, email)
      {
        assert lines[i..][1..] == lines[i + 1..];
        match ParseLine(m, lines[i], email) {
          case Skip =>
          case Found(u) => return Some(u);
          case Throws => return None;
        }
      }
      return None;
    }

    /** `POST /api/viraaj/register`: 400 unless name, email and password are
        given, 400 when the email is already found; otherwise the user line
        and the registration line are appended. Nothing else is ever
        written. */
    method Register(name: Option<string>, email: Option<string>, password: Option<string>,
                    freshId: string, deviceId: string, stamp: string) returns (r: AuthReply)
      modifies this
      ensures StartsWith(text, old(text))
      ensures !Given(name) || !Given(email) || !Given(password) ==>
                r == BadRequest("All fields required") && text == old(text)
      ensures Given(name) && Given(email) && Given(password) && FindIn(Exact, Split(old(text), '\n'), email.value).Some? ==>
                r == BadRequest("Email already registered") && text == old(text)
      ensures r.SignedIn? <==>
                Given(name) && Given(email) && Given(password) && FindIn(Exact, Split(old(text), '\n'), email.value).None?
      ensures r.SignedIn? ==>
                var u := ViraajUser(freshId, name.value, email.value, hash(password.value), deviceId);
                r == SignedIn(freshId, name.value, email.value) &&
                text == old(text) + UserDataLine(stamp, u) + "\n" + RegistrationLine(stamp, u) + "\n"
    {
      if !Given(name) || !Given(email) || !Given(password) {
        return BadRequest("All fields required");
      }
      var existing := FindUserByEmail(Exact, email.value);
      if existing.Some? {
        return BadRequest("Email already registered");
      }
      var u := ViraajUser(freshId, name.value, email.value, hash(password.value), deviceId);
      text := text + UserDataLine(stamp, u) + "\n";
      text := text + RegistrationLine(stamp, u) + "\n";
      r := SignedIn(freshId, name.value, email.value);
    }

    /** `POST /api/viraaj/login`: 400 without email and password, 401 unless
        the user is found and the password's hash is the stored one;
        otherwise only a login line is appended. */
    method Login(email: Option<string>, password: Option<string>, deviceId: string, stamp: string)
      returns (r: AuthReply)
      modifies this
      ensures StartsWith(text, old(text))
      ensures !Given(email) || !Given(password) ==>
                r == BadRequest("Email and password required") && text == old(text)
      ensures Given(email) && Given(password) ==>
                var found := FindIn(Exact, Split(old(text), '\n'), email.value);
                (r.SignedIn? <==> found.Some? && found.value.password == hash(password.value)) &&
                (r.Unauthorized? ==> r.error == "Invalid credentials" && text == old(text)) &&
                (r.SignedIn? ==>
                   r == SignedIn(found.value.id, found.value.name, found.value.email) &&
                   text == old(text) + LoginLine(stamp, found.value.(deviceId := deviceId)) + "\n")
    {
      if !Given(email) || !Given(password) {
        return BadRequest("Email and password required");
      }
      var user := FindUserByEmail(Exact, email.value);
      if user.None? || user.value.password != hash(password.value) {
        return Unauthorized("Invalid credentials");
      }
      var u := user.value.(deviceId := deviceId);
      text := text + LoginLine(stamp, u) + "\n";
      r := SignedIn(u.id, u.name, u.email);
    }

    /** `GET /api/viraaj/check-device`: not remembered without the header;
        otherwise remembered exactly when the file mentions `DEVICE:{id}`. */
    function CheckDevice(deviceId: Option<string>): (remembered: bool)
      reads this
      ensures remembered <==> Given(deviceId) && Contains(text, DeviceTag(deviceId.value))
    {
      Given(deviceId) && Contains(text, DeviceTag(deviceId.value))
    }
  }
}
