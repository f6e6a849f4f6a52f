/** server/file-database.ts: users and projects kept as two JSON lists in
    `database/users.json` and `database/projects.json`. Every operation reads
    the whole list, changes it and writes the whole list back. A document is
    modelled by what parsing it gives: the list, or nothing when the file
    cannot be read or parsed, in which case `getUsers`/`getProjects` give
    the empty list. Password hashing, fresh ids and the clock are given. */
module FileDatabase {
  import opened Common

  datatype User = User(id: string, email: string, password: string, name: string,
                       createdAt: int, lastLoginAt: int, loginCount: int,
                       ipAddress: Option<string>, deviceId: Option<string>, userAgent: Option<string>,
                       isOnline: bool)

  /** A project's `files` record is kept opaque: the database only stores it. */
  datatype Project = Project(id: string, name: string, prompt: string, files: string, userId: string,
                             createdAt: int, previewUrl: Option<string>, language: string,
                             framework: Option<string>)

  /** The optional fields of `updateUserLogin`'s `updates`; an absent field
      leaves the stored one as it is. */
  datatype LoginUpdates = LoginUpdates(ipAddress: Option<string>, deviceId: Option<string>, userAgent: Option<string>)

  /** One day, in milliseconds. */
  const Day: int := 24 * 60 * 60 * 1000

  /** The index of the first user with this id (`findIndex`). */
  function IndexOfId(users: seq<User>, id: string): (r: Option<nat>)
    ensures r.Some? ==> r.value < |users| && users[r.value].id == id
    ensures r.Some? ==> forall j :: 0 <= j < r.value ==> users[j].id != id
    ensures r.None? ==> forall j :: 0 <= j < |users| ==> users[j].id != id
  {
    if users == [] then None
    else if users[0].id == id then Some(0)
    else match IndexOfId(users[1..], id)
      case None => None
      case Some(i) => Some(i + 1)
  }

  /** The first user with this email (`find`). */
  function FindByEmail(users: seq<User>, email: string): (r: Option<User>)
    ensures r.Some? <==> exists j :: 0 <= j < |users| && users[j].email == email
    ensures r.Some? ==> exists j :: 0 <= j < |users| && users[j] == r.value &&
                          r.value.email == email && forall k :: 0 <= k < j ==> users[k].email != email
  {
    if users == [] then None
    else if users[0].email == email then Some(users[0])
    else
      var r := FindByEmail(users[1..], email);
      assert forall j :: 1 <= j < |users| ==> users[j] == users[1..][j - 1];
      r
  }

  /** The first user with this id. */
  function FindById(users: seq<User>, id: string): (r: Option<User>)
    ensures r.Some? <==> IndexOfId(users, id).Some?
    ensures r.Some? ==> r.value == users[IndexOfId(users, id).value]
  {
    match IndexOfId(users, id)
    case None => None
    case Some(i) => Some(users[i])
  }

  /** The projects of one user, in stored order (`filter`). */
  function ProjectsOf(projects: seq<Project>, userId: string): (r: seq<Project>)
    ensures |r| <= |projects|
  {
    if projects == [] then []
    else (if projects[0].userId == userId then [projects[0]] else []) + ProjectsOf(projects[1..], userId)
  }

  /** The filter keeps exactly the projects of the user. */
  lemma {:induction false} ProjectsOfSpec(projects: seq<Project>, userId: string)
    ensures forall p :: p in ProjectsOf(projects, userId) <==> p in projects && p.userId == userId
  {
    if projects != [] {
      ProjectsOfSpec(projects[1..], userId);
      assert projects == [projects[0]] + projects[1..];
    }
  }

  /** How many users are online. */
  function OnlineCount(users: seq<User>): (n: nat)
    ensures n <= |users|
  {
    if users == [] then 0 else (if users[0].isOnline then 1 else 0) + OnlineCount(users[1..])
  }

  /** How many projects were created less than a day before `now`. */
  function RecentCount(projects: seq<Project>, now: int): (n: nat)
    ensures n <= |projects|
  {
    if projects == [] then 0 else (if now - projects[0].createdAt < Day then 1 else 0) + RecentCount(projects[1..], now)
  }

  datatype Stats = Stats(totalUsers: nat, totalProjects: nat, onlineUsers: nat, recentProjects: nat)

  /** The user a successful login leaves: the updates copied in, the login
      time stamped, one more login, online. */
  function LoggedIn(u: User, updates: LoginUpdates, now: int): (v: User)
    ensures v.id == u.id && v.email == u.email && v.password == u.password && v.name == u.name
    ensures v.createdAt == u.createdAt && v.lastLoginAt == now
    ensures v.loginCount == u.loginCount + 1 && v.isOnline
    ensures v.ipAddress == (if updates.ipAddress.Some? then updates.ipAddress else u.ipAddress)
    ensures v.deviceId == (if updates.deviceId.Some? then updates.deviceId else u.deviceId)
    ensures v.userAgent == (if updates.userAgent.Some? then updates.userAgent else u.userAgent)
  {
    u.(ipAddress := if updates.ipAddress.Some? then updates.ipAddress else u.ipAddress,
       deviceId := if updates.deviceId.Some? then updates.deviceId else u.deviceId,
       userAgent := if updates.userAgent.Some? then updates.userAgent else u.userAgent,
       lastLoginAt := now, loginCount := u.loginCount + 1, isOnline := true)
  }

  class Database {
    /** What `users.json` parses to, if anything. */
    var usersDoc: Option<seq<User>>
    /** What `projects.json` parses to, if anything. */
    var projectsDoc: Option<seq<Project>>
    /** `sha256(password)` as hex. */
    const hash: string -> string

    /** `init`, given each file as the server finds it: `None` when it is
        missing, otherwise what it parses to. A missing file is written as
        an empty list; an existing one, readable or not, is left alone. */
    constructor (existingUsers: Option<Option<seq<User>>>, existingProjects: Option<Option<seq<Project>>>,
                 hash: string -> string)
      ensures existingUsers.Some? ==> usersDoc == existingUsers.value
      ensures existingUsers.None? ==> usersDoc == Some([])
      ensures existingProjects.Some? ==> projectsDoc == existingProjects.value
      ensures existingProjects.None? ==> projectsDoc == Some([])
      ensures this.hash == hash
    {
      usersDoc := if existingUsers.Some? then existingUsers.value else Some([]);
      projectsDoc := if existingProjects.Some? then existingProjects.value else Some([]);
      this.hash := hash;
    }

    /** `getUsers`: the stored list, or empty when it cannot be read. */
    function GetUsers(): (users: seq<User>)
      reads this
      ensures usersDoc.Some? ==> users == usersDoc.value
      ensures usersDoc.None? ==> users == []
    {
      if usersDoc.Some? then usersDoc.value else []
    }

    function GetProjects(): (projects: seq<Project>)
      reads this
      ensures projectsDoc.Some? ==> projects == projectsDoc.value
      ensures projectsDoc.None? ==> projects == []
    {
      if projectsDoc.Some? then projectsDoc.value else []
    }

    /** `getUserByEmail`: the first user with the email, or null. */
    function GetUserByEmail(email: string): (r: Option<User>)
      reads this
      ensures r.Some? ==> r.value in GetUsers() && r.value.email == email
      ensures r.None? ==> forall u :: u in GetUsers() ==> u.email != email
    {
      FindByEmail(GetUsers(), email)
    }

    /** `getUserById`: the first user with the id, or null. */
    function GetUserById(id: string): (r: Option<User>)
      reads this
      ensures r.Some? ==> r.value in GetUsers() && r.value.id == id
      ensures r.None? ==> forall u :: u in GetUsers() ==> u.id != id
    {
      FindById(GetUsers(), id)
    }

    /** `createUser`: one new user at the end of the list, logged in once and
        online, with the hash of the password; every earlier user is kept.
        The list written is what `getUsers` read, so an unreadable file is
        replaced by a list holding only the new user. */
    method CreateUser(email: string, password: string, name: string, ipAddress: Option<string>,
                      deviceId: Option<string>, userAgent: Option<string>, freshId: string, now: int)
      returns (u: User)
      modifies this
      ensures usersDoc == Some(old(GetUsers()) + [u])
      ensures projectsDoc == old(projectsDoc)
      ensures u == User(freshId, email, hash(password), name, now, now, 1, ipAddress, deviceId, userAgent, true)
    {
      var users := GetUsers();
      u := User(freshId, email, hash(password), name, now, now, 1, ipAddress, deviceId, userAgent, true);
      users := users + [u];
      usersDoc := Some(users);
    }

    /** `updateUserLogin`: the first user with the id is logged in again and
        the list written back; when no user has the id nothing is written. */
    method UpdateUserLogin(userId: string, updates: LoginUpdates, now: int)
      modifies this
      ensures projectsDoc == old(projectsDoc)
      ensures IndexOfId(old(GetUsers()), userId).None? ==> usersDoc == old(usersDoc)
      ensures IndexOfId(old(GetUsers()), userId).Some? ==>
                var i := IndexOfId(old(GetUsers()), userId).value;
                usersDoc == Some(old(GetUsers())[i := LoggedIn(old(GetUsers())[i], updates, now)])
    {
      var users := GetUsers();
      var userIndex := IndexOfId(users, userId);
      if userIndex.Some? {
        var i := userIndex.value;
        users := users[i := LoggedIn(users[i], updates, now)];
        usersDoc := Some(users);
      }
    }

    /** `verifyPassword`: the user with this email when the hash of the
        password is the stored one, else nothing. */
    function VerifyPassword(email: string, password: string): (r: Option<User>)
      reads this
      ensures r.Some? <==> GetUserByEmail(email).Some? && GetUserByEmail(email).value.password == hash(password)
      ensures r.Some? ==> r == GetUserByEmail(email)
    {
      match GetUserByEmail(email)
      case None => None
      case Some(user) => if user.password == hash(password) then Some(user) else None
    }

    /** `createProject`: one new project at the end of the list. */
    method CreateProject(name: string, prompt: string, files: string, userId: string, previewUrl: Option<string>,
                         language: string, framework: Option<string>, freshId: string, now: int)
      returns (p: Project)
      modifies this
      ensures projectsDoc == Some(old(GetProjects()) + [p])
      ensures usersDoc == old(usersDoc)
      ensures p == Project(freshId, name, prompt, files, userId, now, previewUrl, language, framework)
    {
      var projects := GetProjects();
      p := Project(freshId, name, prompt, files, userId, now, previewUrl, language, framework);
      projects := projects + [p];
      projectsDoc := Some(projects);
    }

    /** `getUserProjects`: the user's projects, in stored order. */
    function GetUserProjects(userId: string): (r: seq<Project>)
      reads this
      ensures forall p :: p in r ==> p in GetProjects() && p.userId == userId
      ensures forall p :: p in GetProjects() && p.userId == userId ==> p in r
    {
      ProjectsOfSpec(GetProjects(), userId);
      ProjectsOf(GetProjects(), userId)
    }

    /** `getProjectById`: the first project with the id. */
    function GetProjectById(id: string): (r: Option<Project>)
      reads this
      ensures r.Some? ==> r.value in GetProjects() && r.value.id == id
      ensures r.None? ==> forall p :: p in GetProjects() ==> p.id != id
    {
      FirstProject(GetProjects(), id)
    }

    /** `getStats` at time `now`. */
    function GetStats(now: int): (s: Stats)
      reads this
      ensures s.totalUsers == |GetUsers()| && s.totalProjects == |GetProjects()|
      ensures s.onlineUsers == OnlineCount(GetUsers()) && s.recentProjects == RecentCount(GetProjects(), now)
      ensures s.onlineUsers <= s.totalUsers && s.recentProjects <= s.totalProjects
    {
      Stats(|GetUsers()|, |GetProjects()|, OnlineCount(GetUsers()), RecentCount(GetProjects(), now))
    }
  }

  function FirstProject(projects: seq<Project>, id: string): (r: Option<Project>)
    ensures r.Some? ==> r.value in projects && r.value.id == id
    ensures r.None? ==> forall p :: p in projects ==> p.id != id
  {
    if projects == [] then None
    else if projects[0].id == id then Some(projects[0])
    else FirstProject(projects[1..], id)
  }

  /** A new user is found by its id when the id was not taken, and a lookup
      by email still finds the earlier user when the email was taken:
      `createUser` does not check for duplicates. */
  lemma CreatedUserFound(users: seq<User>, u: User)
    requires forall j :: 0 <= j < |users| ==> users[j].id != u.id
    ensures FindById(users + [u], u.id) == Some(u)
    ensures FindByEmail(users, u.email).Some? ==> FindByEmail(users + [u], u.email) == FindByEmail(users, u.email)
    ensures FindByEmail(users, u.email).None? ==> FindByEmail(users + [u], u.email) == Some(u)
  {
    IndexOfIdAppend(users, u, u.id);
    FindByEmailAppend(users, u, u.email);
  }

  lemma {:induction false} IndexOfIdAppend(users: seq<User>, u: User, id: string)
    ensures IndexOfId(users, id).Some? ==> IndexOfId(users + [u], id) == IndexOfId(users, id)
    ensures IndexOfId(users, id).None? && u.id == id ==> IndexOfId(users + [u], id) == Some(|users|)
  {
    if users != [] {
      assert (users + [u])[1..] == users[1..] + [u];
      IndexOfIdAppend(users[1..], u, id);
    }
  }

  lemma {:induction false} FindByEmailAppend(users: seq<User>, u: User, email: string)
    ensures FindByEmail(users, email).Some? ==> FindByEmail(users + [u], email) == FindByEmail(users, email)
    ensures FindByEmail(users, email).None? && u.email == email ==> FindByEmail(users + [u], email) == Some(u)
  {
    if users != [] {
      assert (users + [u])[1..] == users[1..] + [u];
      FindByEmailAppend(users[1..], u, email);
    }
  }

  /** A login changes only the user it is for: every other entry, and the
      length of the list, stay, and a lookup by id finds the updated user. */
  lemma LoginTouchesOne(users: seq<User>, userId: string, updates: LoginUpdates, now: int)
    requires IndexOfId(users, userId).Some?
    ensures var i := IndexOfId(users, userId).value;
            var after := users[i := LoggedIn(users[i], updates, now)];
            |after| == |users| &&
            (forall j :: 0 <= j < |users| && j != i ==> after[j] == users[j]) &&
            FindById(after, userId) == Some(after[i]) &&
            after[i].loginCount == users[i].loginCount + 1 && after[i].isOnline
  {
    var i := IndexOfId(users, userId).value;
    var after := users[i := LoggedIn(users[i], updates, now)];
    assert forall j :: 0 <= j < |users| ==> (after[j].id == userId <==> users[j].id == userId);
    IndexOfIdSameIds(users, after, userId);
  }

  /** The first index of an id depends only on the ids. */
  lemma {:induction false} IndexOfIdSameIds(a: seq<User>, b: seq<User>, id: string)
    requires |a| == |b|
    requires forall j :: 0 <= j < |a| ==> (a[j].id == id <==> b[j].id == id)
    ensures IndexOfId(a, id) == IndexOfId(b, id)
  {
    if a != [] {
      IndexOfIdSameIds(a[1..], b[1..], id);
    }
  }

  /** A new project of a user is listed last among that user's projects;
      one of another user does not change the list. */
  lemma {:induction false} ProjectsOfAppend(projects: seq<Project>, p: Project, userId: string)
    ensures ProjectsOf(projects + [p], userId) ==
            ProjectsOf(projects, userId) + (if p.userId == userId then [p] else [])
  {
    var tail := if p.userId == userId then [p] else [];
    var all := projects + [p];
    if projects == [] {
      assert all == [p] && all[1..] == [];
      assert ProjectsOf(all, userId) == tail + ProjectsOf([], userId);
    } else {
      var head := if projects[0].userId == userId then [projects[0]] else [];
      assert all[0] == projects[0] && all[1..] == projects[1..] + [p];
      ProjectsOfAppend(projects[1..], p, userId);
      calc {
        ProjectsOf(all, userId);
        head + ProjectsOf(projects[1..] + [p], userId);
        head + (ProjectsOf(projects[1..], userId) + tail);
        (head + ProjectsOf(projects[1..], userId)) + tail;
      }
    }
  }

}
