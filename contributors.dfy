/** Contributor classification of scripts/contributors.mjs: commits aggregated by lower-cased
    author email, authors split against the default team into active, quiet and former, and
    the optional anonymisation. The fetches of repositories, commits and team members are
    inputs. */
module Contributors {
  import opened Wrappers
  import opened Seqs
  import opened Text

  /** A commit as fetched; a missing email, name or repository name is "" and a missing or
      empty date is `None`. Dates stand for their ISO strings, in the same order. */
  datatype Commit = Commit(email: string, name: string, date: Option<int>, repoName: string)

  datatype Author = Author(name: string, email: string, commitCount: nat, repos: seq<string>, lastCommitDate: Option<int>)

  /** `(commit.author?.email || '').toLowerCase()`. */
  function KeyOf(c: Commit): string { ToLower(c.email) }

  /** `commit.author?.name || 'Unknown'`. */
  function NameOr(c: Commit): string { if c.name == "" then "Unknown" else c.name }

  /** `date && (!entry.lastCommitDate || date > entry.lastCommitDate)`. */
  predicate Later(date: Option<int>, last: Option<int>) {
    date.Some? && (last.None? || date.value > last.value)
  }

  function IndexOf(authors: seq<Author>, email: string): (r: Option<nat>)
    ensures r.None? <==> forall k :: 0 <= k < |authors| ==> authors[k].email != email
    ensures r.Some? ==> r.value < |authors| && authors[r.value].email == email
  {
    if authors == [] then None
    else if authors[|authors| - 1].email == email then Some(|authors| - 1)
    else
      assert forall k :: 0 <= k < |authors| - 1 ==> authors[k] == authors[..|authors| - 1][k];
      IndexOf(authors[..|authors| - 1], email)
  }

  /** One more commit for an entry: count, repository set, and the name and date of the
      latest commit. */
  function Tally(a: Author, c: Commit): Author {
    var counted := a.(commitCount := a.commitCount + 1,
                      repos := if c.repoName != "" && c.repoName !in a.repos then a.repos + [c.repoName] else a.repos);
    if Later(c.date, counted.lastCommitDate) then counted.(name := NameOr(c), lastCommitDate := c.date) else counted
  }

  /** The body of the aggregation loop for one commit. */
  function AddCommit(authors: seq<Author>, c: Commit): seq<Author> {
    var email := KeyOf(c);
    if email == "" then authors
    else match IndexOf(authors, email)
      case None => authors + [Tally(Author(NameOr(c), email, 0, [], c.date), c)]
      case Some(k) => authors[k := Tally(authors[k], c)]
  }

  /** `authorMap` after the aggregation loop, in insertion order. */
  function Aggregate(commits: seq<Commit>): seq<Author> {
    if commits == [] then [] else AddCommit(Aggregate(commits[..|commits| - 1]), commits[|commits| - 1])
  }

  lemma AggregateStep(commits: seq<Commit>, i: nat)
    requires i < |commits|
    ensures Aggregate(commits[..i + 1]) == AddCommit(Aggregate(commits[..i]), commits[i])
  {
    assert commits[..i + 1][..i] == commits[..i];
  }

  /** The update of one entry for a commit: count, repository set, and the name and date of
      a later commit. */
  method TallyEntry(entry: Author, commit: Commit) returns (e: Author)
    ensures e == Tally(entry, commit)
  {
    e := entry.(commitCount := entry.commitCount + 1);
    if commit.repoName != "" && commit.repoName !in e.repos {
      e := e.(repos := e.repos + [commit.repoName]);
    }
    if commit.date.Some? && (e.lastCommitDate.None? || commit.date.value > e.lastCommitDate.value) {
      e := e.(name := NameOr(commit), lastCommitDate := commit.date);
    }
  }

  /** The aggregation loop, updating the entry of the commit's email in place. */
  method AggregateCommits(commits: seq<Commit>) returns (authorMap: seq<Author>)
    ensures authorMap == Aggregate(commits)
  {
    authorMap := [];
    var i := 0;
    while i < |commits|
      invariant i <= |commits|
      invariant authorMap == Aggregate(commits[..i])
    {
      var commit := commits[i];
      AggregateStep(commits, i);
      i := i + 1;
      var email := ToLower(commit.email);
      if email == "" { continue; }
      var name := NameOr(commit);
      var date := commit.date;
      ghost var before := authorMap;
      var k := IndexOf(authorMap, email);
      if k.None? {
        authorMap := authorMap + [Author(name, email, 0, [], date)];
        k := Some(|authorMap| - 1);
      }
      var entry := TallyEntry(authorMap[k.value], commit);
      authorMap := authorMap[k.value := entry];
      if IndexOf(before, email).None? {
        assert authorMap == before + [Tally(Author(name, email, 0, [], date), commit)];
      } else {
        assert authorMap == before[k.value := Tally(before[k.value], commit)];
      }
    }
    assert commits[..i] == commits;
  }

  // ---------------------------------------------------------------------------
  // What each entry holds, defined per email
  // ---------------------------------------------------------------------------

  /** The number of commits under this (lower-cased) email. */
  function CommitsOf(commits: seq<Commit>, email: string): nat {
    if commits == [] then 0
    else CommitsOf(commits[..|commits| - 1], email) + (if KeyOf(commits[|commits| - 1]) == email then 1 else 0)
  }

  /** The greatest date among the commits under this email. */
  function LatestDate(commits: seq<Commit>, email: string): (d: Option<int>)
    ensures d.None? <==> forall i :: 0 <= i < |commits| && KeyOf(commits[i]) == email ==> commits[i].date.None?
    ensures d.Some? ==> exists i :: 0 <= i < |commits| && KeyOf(commits[i]) == email && commits[i].date == d
    ensures d.Some? ==> forall i :: 0 <= i < |commits| && KeyOf(commits[i]) == email && commits[i].date.Some?
                                    ==> commits[i].date.value <= d.value
  {
    if commits == [] then None
    else
      var prefix := commits[..|commits| - 1];
      var c := commits[|commits| - 1];
      var d := LatestDate(prefix, email);
      assert forall i :: 0 <= i < |prefix| ==> prefix[i] == commits[i];
      if KeyOf(c) == email && Later(c.date, d) then c.date else d
  }

  /** The name on the first commit under this email with the given date, or on the first
      commit under it at all when `date` is `None`. */
  function FirstNameAt(commits: seq<Commit>, email: string, date: Option<int>): (n: Option<string>)
    ensures n.None? <==> forall i :: 0 <= i < |commits| ==> !(KeyOf(commits[i]) == email && (date.None? || commits[i].date == date))
  {
    if commits == [] then None
    else
      var prefix := commits[..|commits| - 1];
      var c := commits[|commits| - 1];
      assert forall i :: 0 <= i < |prefix| ==> prefix[i] == commits[i];
      match FirstNameAt(prefix, email, date)
      case Some(n) => Some(n)
      case None => if KeyOf(c) == email && (date.None? || c.date == date) then Some(NameOr(c)) else None
  }

  /** The distinct non-empty repository names of the commits under this email. */
  function ReposOf(commits: seq<Commit>, email: string): (rs: seq<string>)
    ensures Distinct(rs)
    ensures forall r :: r in rs <==> r != "" && exists i :: 0 <= i < |commits| && KeyOf(commits[i]) == email && commits[i].repoName == r
  {
    if commits == [] then []
    else
      var prefix := commits[..|commits| - 1];
      var c := commits[|commits| - 1];
      var rs := ReposOf(prefix, email);
      assert forall i :: 0 <= i < |prefix| ==> prefix[i] == commits[i];
      if KeyOf(c) == email && c.repoName != "" && c.repoName !in rs then rs + [c.repoName] else rs
  }

  /** The entry an email should have: its commit count, its repositories, its latest date,
      and the name on the first commit carrying that date (on the first commit when none
      is dated). */
  function ExpectedAuthor(commits: seq<Commit>, email: string): Author {
    var d := LatestDate(commits, email);
    Author(FirstNameAt(commits, email, d).GetOr(""), email, CommitsOf(commits, email), ReposOf(commits, email), d)
  }

  /** The entry stored under an email. */
  function EntryOf(authors: seq<Author>, email: string): Option<Author> {
    match IndexOf(authors, email)
    case None => None
    case Some(k) => Some(authors[k])
  }

  lemma {:induction false} IndexOfSameEmails(a: seq<Author>, b: seq<Author>, email: string)
    requires |a| == |b| && forall k :: 0 <= k < |a| ==> a[k].email == b[k].email
    ensures IndexOf(a, email) == IndexOf(b, email)
  {
    if a != [] {
      IndexOfSameEmails(a[..|a| - 1], b[..|b| - 1], email);
    }
  }

  /** How one commit changes the entry of an email. */
  lemma AddCommitEntry(authors: seq<Author>, c: Commit, email: string)
    ensures EntryOf(AddCommit(authors, c), email) ==
      if KeyOf(c) != email || email == "" then EntryOf(authors, email)
      else match EntryOf(authors, email)
        case None => Some(Tally(Author(NameOr(c), email, 0, [], c.date), c))
        case Some(a) => Some(Tally(a, c))
  {
    var key := KeyOf(c);
    if key != "" {
      match IndexOf(authors, key)
      case None =>
        var a' := authors + [Tally(Author(NameOr(c), key, 0, [], c.date), c)];
        assert AddCommit(authors, c) == a';
        assert a'[..|a'| - 1] == authors;
      case Some(k) =>
        var a' := authors[k := Tally(authors[k], c)];
        assert AddCommit(authors, c) == a';
        IndexOfSameEmails(authors, a', email);
    }
  }

  lemma {:induction false} CommitsOfNone(commits: seq<Commit>, email: string)
    requires CommitsOf(commits, email) == 0
    ensures forall i :: 0 <= i < |commits| ==> KeyOf(commits[i]) != email
  {
    if commits != [] {
      var prefix := commits[..|commits| - 1];
      CommitsOfNone(prefix, email);
      assert forall i :: 0 <= i < |prefix| ==> prefix[i] == commits[i];
    }
  }

  /** The per-email functions on one more commit under that email. */
  lemma ExpectedUnfold(prefix: seq<Commit>, c: Commit, email: string)
    requires email == KeyOf(c)
    ensures var commits, d0 := prefix + [c], LatestDate(prefix, email);
      && CommitsOf(commits, email) == CommitsOf(prefix, email) + 1
      && LatestDate(commits, email) == (if Later(c.date, d0) then c.date else d0)
      && ReposOf(commits, email) == (var rs := ReposOf(prefix, email);
                                     if c.repoName != "" && c.repoName !in rs then rs + [c.repoName] else rs)
  {
    var commits := prefix + [c];
    assert commits[..|commits| - 1] == prefix;
  }

  lemma FirstNameUnfold(prefix: seq<Commit>, c: Commit, email: string, d: Option<int>)
    requires email == KeyOf(c)
    ensures FirstNameAt(prefix + [c], email, d) ==
      match FirstNameAt(prefix, email, d)
      case Some(n) => Some(n)
      case None => if d.None? || c.date == d then Some(NameOr(c)) else None
  {
    var commits := prefix + [c];
    assert commits[..|commits| - 1] == prefix;
  }

  /** The step of `AggregateSpec` for the first commit under an email. */
  lemma ExpectedFirst(prefix: seq<Commit>, c: Commit, email: string)
    requires email == KeyOf(c) && CommitsOf(prefix, email) == 0
    ensures ExpectedAuthor(prefix + [c], email) == Tally(Author(NameOr(c), email, 0, [], c.date), c)
  {
    ExpectedUnfold(prefix, c, email);
    FirstNameUnfold(prefix, c, email, c.date);
    NothingUnder(prefix, email, c.date);
    TallyFirst(c, email);
  }

  lemma {:induction false} NothingUnder(commits: seq<Commit>, email: string, d: Option<int>)
    requires CommitsOf(commits, email) == 0
    ensures ReposOf(commits, email) == [] && LatestDate(commits, email).None? && FirstNameAt(commits, email, d).None?
  {
    if commits != [] {
      NothingUnder(commits[..|commits| - 1], email, d);
    }
  }

  lemma TallyFirst(c: Commit, email: string)
    ensures Tally(Author(NameOr(c), email, 0, [], c.date), c) ==
            Author(NameOr(c), email, 1, if c.repoName != "" then [c.repoName] else [], c.date)
  {
    assert [] + [c.repoName] == [c.repoName];
  }

  /** The step of `AggregateSpec` for a further commit under an email. */
  lemma ExpectedNext(prefix: seq<Commit>, c: Commit, email: string)
    requires email == KeyOf(c) && CommitsOf(prefix, email) > 0
    ensures ExpectedAuthor(prefix + [c], email) == Tally(ExpectedAuthor(prefix, email), c)
  {
    ExpectedUnfold(prefix, c, email);
    var d0 := LatestDate(prefix, email);
    var a := ExpectedAuthor(prefix, email);
    var repos := if c.repoName != "" && c.repoName !in a.repos then a.repos + [c.repoName] else a.repos;
    if Later(c.date, d0) {
      FirstNameUnfold(prefix, c, email, c.date);
      assert FirstNameAt(prefix, email, c.date).None?;
      assert ExpectedAuthor(prefix + [c], email) == Author(NameOr(c), email, a.commitCount + 1, repos, c.date);
    } else {
      FirstNameUnfold(prefix, c, email, d0);
      if d0.None? {
        var i :| 0 <= i < |prefix| && KeyOf(prefix[i]) == email by {
          if forall i :: 0 <= i < |prefix| ==> KeyOf(prefix[i]) != email {
            CommitsOfAll(prefix, email);
          }
        }
      }
      assert FirstNameAt(prefix, email, d0).Some?;
      assert ExpectedAuthor(prefix + [c], email) == Author(a.name, email, a.commitCount + 1, repos, d0);
    }
  }

  lemma {:induction false} CommitsOfAll(commits: seq<Commit>, email: string)
    requires forall i :: 0 <= i < |commits| ==> KeyOf(commits[i]) != email
    ensures CommitsOf(commits, email) == 0
  {
    if commits != [] {
      var prefix := commits[..|commits| - 1];
      assert forall i :: 0 <= i < |prefix| ==> prefix[i] == commits[i];
      CommitsOfAll(prefix, email);
    }
  }

  /** The step of `AggregateSpec` for an email the new commit is not filed under. */
  lemma ExpectedUnrelated(prefix: seq<Commit>, c: Commit, email: string)
    requires KeyOf(c) != email
    ensures CommitsOf(prefix + [c], email) == CommitsOf(prefix, email)
    ensures ExpectedAuthor(prefix + [c], email) == ExpectedAuthor(prefix, email)
  {
    var commits := prefix + [c];
    assert commits[..|commits| - 1] == prefix;
    assert LatestDate(commits, email) == LatestDate(prefix, email);
  }

  /** Each non-empty email with commits has exactly its expected entry, and no other key
      exists: the count of its commits, its repositories, its latest date and the name on
      the first commit of that date. */
  lemma {:induction false} AggregateSpec(commits: seq<Commit>, email: string)
    ensures EntryOf(Aggregate(commits), email) ==
      if email != "" && CommitsOf(commits, email) > 0 then Some(ExpectedAuthor(commits, email)) else None
  {
    if commits != [] {
      var prefix := commits[..|commits| - 1];
      var c := commits[|commits| - 1];
      assert commits == prefix + [c];
      assert Aggregate(commits) == AddCommit(Aggregate(prefix), c);
      AggregateSpec(prefix, email);
      AddCommitEntry(Aggregate(prefix), c, email);
      if KeyOf(c) == email {
        if email != "" && CommitsOf(prefix, email) == 0 {
          ExpectedFirst(prefix, c, email);
        } else if email != "" {
          ExpectedNext(prefix, c, email);
        }
      } else {
        ExpectedUnrelated(prefix, c, email);
      }
    }
  }

  /** Keys are distinct, non-empty and lower-case. */
  ghost predicate WellKeyed(authors: seq<Author>) {
    && (forall a, b :: 0 <= a < b < |authors| ==> authors[a].email != authors[b].email)
    && (forall k :: 0 <= k < |authors| ==> authors[k].email != "" && ToLower(authors[k].email) == authors[k].email)
  }

  lemma {:induction false} AggregateWellKeyed(commits: seq<Commit>)
    ensures WellKeyed(Aggregate(commits))
  {
    if commits != [] {
      var prefix := commits[..|commits| - 1];
      var c := commits[|commits| - 1];
      var authors := Aggregate(prefix);
      AggregateWellKeyed(prefix);
      var key := KeyOf(c);
      if key != "" {
        ToLowerIdempotent(c.email);
        match IndexOf(authors, key)
        case None =>
          var x := Tally(Author(NameOr(c), key, 0, [], c.date), c);
          assert Aggregate(commits) == authors + [x];
          WellKeyedAppend(authors, x);
        case Some(j) =>
          var x := Tally(authors[j], c);
          assert Aggregate(commits) == authors[j := x];
          WellKeyedUpdate(authors, j, x);
      }
    }
  }

  /** A new entry under a fresh, non-empty, lower-case key keeps the keys well formed. */
  lemma WellKeyedAppend(authors: seq<Author>, x: Author)
    requires WellKeyed(authors)
    requires forall k :: 0 <= k < |authors| ==> authors[k].email != x.email
    requires x.email != "" && ToLower(x.email) == x.email
    ensures WellKeyed(authors + [x])
  {
    var a' := authors + [x];
    assert forall k :: 0 <= k < |authors| ==> a'[k] == authors[k];
  }

  /** Replacing an entry by one under the same key keeps the keys well formed. */
  lemma WellKeyedUpdate(authors: seq<Author>, j: nat, x: Author)
    requires WellKeyed(authors)
    requires j < |authors| && x.email == authors[j].email
    ensures WellKeyed(authors[j := x])
  {
    var a' := authors[j := x];
    assert forall k :: 0 <= k < |authors| ==> a'[k].email == authors[k].email;
  }

  function CommitCountOf(a: Author): nat { a.commitCount }

  /** `totalCommits`. */
  function TotalCommits(authors: seq<Author>): nat { SumBy(authors, CommitCountOf) }

  /** The commits that carry an author email. */
  function KeyedCommits(commits: seq<Commit>): nat {
    if commits == [] then 0
    else KeyedCommits(commits[..|commits| - 1]) + (if KeyOf(commits[|commits| - 1]) != "" then 1 else 0)
  }

  /** `totalCommits` is the number of commits with an author email: the skipped ones are
      exactly those without. */
  lemma {:induction false} TotalCommitsSpec(commits: seq<Commit>)
    ensures TotalCommits(Aggregate(commits)) == KeyedCommits(commits)
  {
    if commits != [] {
      var prefix := commits[..|commits| - 1];
      var c := commits[|commits| - 1];
      TotalCommitsSpec(prefix);
      var authors := Aggregate(prefix);
      var key := KeyOf(c);
      if key != "" {
        match IndexOf(authors, key)
        case None => SumByAppend(authors, Tally(Author(NameOr(c), key, 0, [], c.date), c), CommitCountOf);
        case Some(k) => SumByUpdate(authors, k, Tally(authors[k], c), CommitCountOf);
      }
    }
  }

  // ---------------------------------------------------------------------------
  // Classification against the team
  // ---------------------------------------------------------------------------

  /** A team member; a missing unique name or display name is "". */
  datatype TeamMember = TeamMember(uniqueName: string, displayName: string)

  datatype QuietMember = QuietMember(name: string, email: string)

  function MemberKey(m: TeamMember): string { ToLower(m.uniqueName) }

  /** `teamEmails` as built: the distinct non-empty lower-cased unique names, in order of
      first appearance. */
  function TeamEmails(team: seq<TeamMember>): (es: seq<string>)
    ensures Distinct(es)
    ensures forall e :: e in es <==> e != "" && exists i :: 0 <= i < |team| && MemberKey(team[i]) == e
  {
    if team == [] then []
    else
      var prefix := team[..|team| - 1];
      var es := TeamEmails(prefix);
      var e := MemberKey(team[|team| - 1]);
      assert forall i :: 0 <= i < |prefix| ==> prefix[i] == team[i];
      if e != "" && e !in es then es + [e] else es
  }

  /** `teamNameMap` as built: the last member under each email sets `displayName || email`. */
  function TeamNameMap(team: seq<TeamMember>): (m: map<string, string>)
    ensures forall e :: e in m <==> e in TeamEmails(team)
  {
    if team == [] then map[]
    else
      var member := team[|team| - 1];
      var e := MemberKey(member);
      var m := TeamNameMap(team[..|team| - 1]);
      if e != "" then m[e := if member.displayName == "" then e else member.displayName] else m
  }

  /** `teamNameMap.get(email) || email`. */
  function QuietName(nameMap: map<string, string>, email: string): string {
    if email in nameMap && nameMap[email] != "" then nameMap[email] else email
  }

  /** `s` without `x` (`Set.prototype.delete`). */
  function Remove(s: seq<string>, x: string): (r: seq<string>)
    ensures forall y :: y in r <==> y in s && y != x
    ensures Distinct(s) ==> Distinct(r)
  {
    if s == [] then []
    else
      assert forall y :: y in s <==> y == s[0] || y in s[1..];
      var rest := Remove(s[1..], x);
      var r := (if s[0] == x then [] else [s[0]]) + rest;
      assert Distinct(s) ==> Distinct(r) by {
        if Distinct(s) && s[0] != x {
          assert s[0] !in s[1..];
          forall i, j | 0 <= i < j < |r| ensures r[i] != r[j] {
            if i == 0 { assert r[j] in rest; }
          }
        }
      }
      r
  }

  datatype Split = Split(active: seq<Author>, former: seq<Author>, remaining: seq<string>)

  /** The loop over `authorMap`: an author whose email is still in `teamEmails` is active and
      removes it, any other author is former. */
  function SplitAuthors(authors: seq<Author>, teamEmails: seq<string>): Split {
    if authors == [] then Split([], [], teamEmails)
    else
      var prev := SplitAuthors(authors[..|authors| - 1], teamEmails);
      var a := authors[|authors| - 1];
      if a.email in prev.remaining then Split(prev.active + [a], prev.former, Remove(prev.remaining, a.email))
      else Split(prev.active, prev.former + [a], prev.remaining)
  }

  function ToQuiet(remaining: seq<string>, nameMap: map<string, string>): (q: seq<QuietMember>)
    ensures |q| == |remaining|
    ensures forall k :: 0 <= k < |q| ==> q[k] == QuietMember(QuietName(nameMap, remaining[k]), remaining[k])
  {
    seq(|remaining|, k requires 0 <= k < |remaining| => QuietMember(QuietName(nameMap, remaining[k]), remaining[k]))
  }

  lemma ToQuietStep(remaining: seq<string>, i: nat, nameMap: map<string, string>)
    requires i < |remaining|
    ensures ToQuiet(remaining[..i + 1], nameMap) ==
            ToQuiet(remaining[..i], nameMap) + [QuietMember(QuietName(nameMap, remaining[i]), remaining[i])]
  {
    var a, b := ToQuiet(remaining[..i + 1], nameMap), ToQuiet(remaining[..i], nameMap);
    assert forall k :: 0 <= k < i ==> a[k] == b[k];
  }

  /** `(a, b) => b.commitCount - a.commitCount`. */
  function ByCommitsDesc(a: Author, b: Author): bool { a.commitCount >= b.commitCount }

  /** `(a, b) => (a.name || '').localeCompare(b.name || '')`, with code-point order. */
  function ByNameAsc(a: QuietMember, b: QuietMember): bool { LexLe(a.name, b.name) }

  datatype Classification = Classification(active: seq<Author>, quiet: seq<QuietMember>, former: seq<Author>,
                                           teamDataUnavailable: bool)

  /** The classification; `None` stands for team data that could not be fetched or a
      project with no default team. */
  function Classify(authors: seq<Author>, team: Option<seq<TeamMember>>): Classification {
    match team
    case None => Classification(SortBy(authors, ByCommitsDesc), [], [], true)
    case Some(members) =>
      var split := SplitAuthors(authors, TeamEmails(members));
      Classification(SortBy(split.active, ByCommitsDesc),
                     SortBy(ToQuiet(split.remaining, TeamNameMap(members)), ByNameAsc),
                     SortBy(split.former, ByCommitsDesc),
                     false)
  }

  lemma TeamEmailsStep(team: seq<TeamMember>, i: nat, e: string)
    requires i < |team| && e == MemberKey(team[i])
    ensures var es := TeamEmails(team[..i]);
      TeamEmails(team[..i + 1]) == if e != "" && e !in es then es + [e] else es
  {
    assert team[..i + 1][..i] == team[..i];
  }

  lemma TeamNameMapStep(team: seq<TeamMember>, i: nat, e: string, name: string)
    requires i < |team| && e == MemberKey(team[i])
    requires name == if team[i].displayName == "" then e else team[i].displayName
    ensures var m := TeamNameMap(team[..i]);
      TeamNameMap(team[..i + 1]) == if e != "" then m[e := name] else m
  {
    assert team[..i + 1][..i] == team[..i];
  }

  /** The team loop building `teamEmails` and `teamNameMap`. */
  method BuildTeam(team: seq<TeamMember>) returns (teamEmails: seq<string>, teamNameMap: map<string, string>)
    ensures teamEmails == TeamEmails(team)
    ensures teamNameMap == TeamNameMap(team)
  {
    teamEmails := [];
    teamNameMap := map[];
    var i := 0;
    while i < |team|
      invariant i <= |team|
      invariant teamEmails == TeamEmails(team[..i])
      invariant teamNameMap == TeamNameMap(team[..i])
    {
      var member := team[i];
      var email := ToLower(member.uniqueName);
      var name := if member.displayName == "" then email else member.displayName;
      TeamEmailsStep(team, i, email);
      TeamNameMapStep(team, i, email, name);
      if email != "" {
        if email !in teamEmails {
          teamEmails := teamEmails + [email];
        }
        teamNameMap := teamNameMap[email := name];
      }
      i := i + 1;
    }
    assert team[..i] == team;
  }

  /** The loop over `authorMap` that pushes onto `active` and `former` and deletes from
      `teamEmails`. */
  method SplitByTeam(authors: seq<Author>, teamEmails0: seq<string>)
    returns (active: seq<Author>, former: seq<Author>, teamEmails: seq<string>)
    ensures Split(active, former, teamEmails) == SplitAuthors(authors, teamEmails0)
  {
    active, former, teamEmails := [], [], teamEmails0;
    var i := 0;
    while i < |authors|
      invariant i <= |authors|
      invariant Split(active, former, teamEmails) == SplitAuthors(authors[..i], teamEmails0)
    {
      var author := authors[i];
      assert authors[..i + 1][..i] == authors[..i];
      if author.email in teamEmails {
        active := active + [author];
        teamEmails := Remove(teamEmails, author.email);
      } else {
        former := former + [author];
      }
      i := i + 1;
    }
    assert authors[..i] == authors;
  }

  /** The classification block: degraded mode without team data, otherwise the team loop,
      the author loop, the quiet loop and the three sorts. */
  method ClassifyContributors(authors: seq<Author>, team: Option<seq<TeamMember>>) returns (c: Classification)
    ensures c == Classify(authors, team)
  {
    if team.None? {
      return Classification(SortBy(authors, ByCommitsDesc), [], [], true);
    }
    var teamEmails, teamNameMap := BuildTeam(team.value);
    var active, former, remaining := SplitByTeam(authors, teamEmails);
    var quiet: seq<QuietMember> := [];
    var i := 0;
    while i < |remaining|
      invariant i <= |remaining|
      invariant quiet == ToQuiet(remaining[..i], teamNameMap)
    {
      quiet := quiet + [QuietMember(QuietName(teamNameMap, remaining[i]), remaining[i])];
      ToQuietStep(remaining, i, teamNameMap);
      i := i + 1;
    }
    assert remaining[..i] == remaining;
    c := Classification(SortBy(active, ByCommitsDesc), SortBy(quiet, ByNameAsc), SortBy(former, ByCommitsDesc), false);
  }

  // ---------------------------------------------------------------------------
  // Properties of the classification
  // ---------------------------------------------------------------------------

  predicate EmailTaken(authors: seq<Author>, e: string) {
    exists k :: 0 <= k < |authors| && authors[k].email == e
  }

  /** With distinct author emails, the author loop files each author once: active exactly
      when the email is a team email, former otherwise, and the team emails left over are
      those of no author. */
  lemma {:induction false} SplitAuthorsSpec(authors: seq<Author>, teamEmails: seq<string>)
    requires forall a, b :: 0 <= a < b < |authors| ==> authors[a].email != authors[b].email
    requires Distinct(teamEmails)
    ensures var sp := SplitAuthors(authors, teamEmails);
      && multiset(sp.active) + multiset(sp.former) == multiset(authors)
      && (forall a :: a in sp.active ==> a.email in teamEmails)
      && (forall a :: a in sp.former ==> a.email !in teamEmails)
      && Distinct(sp.remaining)
      && (forall e :: e in sp.remaining <==> e in teamEmails && !EmailTaken(authors, e))
  {
    if authors != [] {
      var prefix := authors[..|authors| - 1];
      var a := authors[|authors| - 1];
      assert authors == prefix + [a];
      SplitAuthorsSpec(prefix, teamEmails);
      var prev := SplitAuthors(prefix, teamEmails);
      EmailTakenSnoc(authors);
      assert a.email in prev.remaining <==> a.email in teamEmails;
    }
  }

  /** The last author's email is taken by none before it, and an email is taken by the
      authors exactly when it is taken before the last or is the last one's. */
  lemma EmailTakenSnoc(authors: seq<Author>)
    requires authors != []
    requires forall a, b :: 0 <= a < b < |authors| ==> authors[a].email != authors[b].email
    ensures var prefix, a := authors[..|authors| - 1], authors[|authors| - 1];
      && !EmailTaken(prefix, a.email)
      && forall e :: EmailTaken(authors, e) <==> EmailTaken(prefix, e) || e == a.email
  {
    var prefix, a := authors[..|authors| - 1], authors[|authors| - 1];
    forall e ensures EmailTaken(authors, e) <==> EmailTaken(prefix, e) || e == a.email {
      if EmailTaken(prefix, e) {
        var k :| 0 <= k < |prefix| && prefix[k].email == e;
        assert authors[k].email == e;
      }
      if EmailTaken(authors, e) && e != a.email {
        var k :| 0 <= k < |authors| && authors[k].email == e;
        assert prefix[k].email == e;
      }
    }
  }

  lemma NameOrderIsTotal()
    ensures TotalPreorder(ByNameAsc)
  {
    forall a: QuietMember, b: QuietMember ensures ByNameAsc(a, b) || ByNameAsc(b, a) {
      LexLeTotal(a.name, b.name);
    }
    forall a: QuietMember, b: QuietMember, c: QuietMember | ByNameAsc(a, b) && ByNameAsc(b, c)
      ensures ByNameAsc(a, c)
    {
      LexLeTransitive(a.name, b.name, c.name);
    }
  }

  /** Without team data every author is active, by non-increasing commit count, and quiet
      and former are empty. */
  lemma NoTeamData(authors: seq<Author>)
    ensures var c := Classify(authors, None);
      && c.teamDataUnavailable
      && multiset(c.active) == multiset(authors)
      && Sorted(c.active, ByCommitsDesc)
      && c.quiet == [] && c.former == []
  {
    SortBySorted(authors, ByCommitsDesc);
  }

  /** With team data, over distinct author emails, each author is in exactly one of active
      (email on the team) and former. */
  lemma WithTeamPartition(authors: seq<Author>, team: seq<TeamMember>)
    requires forall a, b :: 0 <= a < b < |authors| ==> authors[a].email != authors[b].email
    ensures var c := Classify(authors, Some(team));
      && !c.teamDataUnavailable
      && multiset(c.active) + multiset(c.former) == multiset(authors)
      && (forall a :: a in c.active ==> a.email in TeamEmails(team))
      && (forall a :: a in c.former ==> a.email !in TeamEmails(team))
  {
    var sp := SplitAuthors(authors, TeamEmails(team));
    SplitAuthorsSpec(authors, TeamEmails(team));
    forall a | a in SortBy(sp.active, ByCommitsDesc) ensures a in sp.active { SortByMembers(sp.active, ByCommitsDesc, a); }
    forall a | a in SortBy(sp.former, ByCommitsDesc) ensures a in sp.former { SortByMembers(sp.former, ByCommitsDesc, a); }
  }

  /** Quiet holds exactly the team emails that no author has. */
  lemma WithTeamQuiet(authors: seq<Author>, team: seq<TeamMember>, e: string)
    requires forall a, b :: 0 <= a < b < |authors| ==> authors[a].email != authors[b].email
    ensures (exists q :: q in Classify(authors, Some(team)).quiet && q.email == e)
            <==> e in TeamEmails(team) && !EmailTaken(authors, e)
  {
    var sp := SplitAuthors(authors, TeamEmails(team));
    SplitAuthorsSpec(authors, TeamEmails(team));
    QuietEmails(sp.remaining, TeamNameMap(team), e);
  }

  /** The sorted quiet list holds an entry for `e` exactly when `e` is a leftover email. */
  lemma QuietEmails(remaining: seq<string>, nameMap: map<string, string>, e: string)
    ensures (exists q :: q in SortBy(ToQuiet(remaining, nameMap), ByNameAsc) && q.email == e) <==> e in remaining
  {
    var quiet0 := ToQuiet(remaining, nameMap);
    var quiet := SortBy(quiet0, ByNameAsc);
    if e in remaining {
      var k :| 0 <= k < |remaining| && remaining[k] == e;
      SortByMembers(quiet0, ByNameAsc, quiet0[k]);
      assert quiet0[k] in quiet && quiet0[k].email == e;
    }
    if exists q :: q in quiet && q.email == e {
      var q :| q in quiet && q.email == e;
      SortByMembers(quiet0, ByNameAsc, q);
      var k :| 0 <= k < |quiet0| && quiet0[k] == q;
      assert remaining[k] == e;
    }
  }

  /** The three lists share no email. */
  lemma WithTeamDisjoint(authors: seq<Author>, team: seq<TeamMember>)
    requires forall a, b :: 0 <= a < b < |authors| ==> authors[a].email != authors[b].email
    ensures var c := Classify(authors, Some(team));
      && (forall a, q :: a in c.active && q in c.quiet ==> a.email != q.email)
      && (forall f, q :: f in c.former && q in c.quiet ==> f.email != q.email)
      && (forall a, f :: a in c.active && f in c.former ==> a.email != f.email)
  {
    var c := Classify(authors, Some(team));
    WithTeamPartition(authors, team);
    forall a, q | a in c.active && q in c.quiet ensures a.email != q.email {
      WithTeamQuiet(authors, team, q.email);
      assert a in multiset(authors);
      var k :| 0 <= k < |authors| && authors[k] == a;
    }
    forall f, q | f in c.former && q in c.quiet ensures f.email != q.email {
      WithTeamQuiet(authors, team, q.email);
    }
  }

  /** Active and former are by non-increasing commit count and quiet is by name. */
  lemma WithTeamSorted(authors: seq<Author>, team: seq<TeamMember>)
    ensures var c := Classify(authors, Some(team));
      Sorted(c.active, ByCommitsDesc) && Sorted(c.former, ByCommitsDesc) && Sorted(c.quiet, ByNameAsc)
  {
    var sp := SplitAuthors(authors, TeamEmails(team));
    SortBySorted(sp.active, ByCommitsDesc);
    SortBySorted(sp.former, ByCommitsDesc);
    NameOrderIsTotal();
    SortBySorted(ToQuiet(sp.remaining, TeamNameMap(team)), ByNameAsc);
  }

  // ---------------------------------------------------------------------------
  // Anonymisation
  // ---------------------------------------------------------------------------

  const Masked: string := "---"

  /** The name prefixes of anonymous mode, one per list. */
  const ActiveTag: string := "Active Contributor "
  const QuietTag: string := "Team Member "
  const FormerTag: string := "Former Contributor "

  /** `${label} ${i + 1}`. */
  function Numbered(tag: string, i: nat): string { tag + NatToString(i + 1) }

  /** Two positions never get the same tag. */
  lemma NumberedInjective(tag: string, i: nat, j: nat)
    requires Numbered(tag, i) == Numbered(tag, j)
    ensures i == j
  {
    var a, b := Numbered(tag, i), Numbered(tag, j);
    assert NatToString(i + 1) == a[|tag|..];
    assert NatToString(j + 1) == b[|tag|..];
    NatToStringInjective(i + 1, j + 1);
  }

  function AnonymizeAuthors(l: seq<Author>, tag: string): (r: seq<Author>)
    ensures |r| == |l|
  {
    seq(|l|, i requires 0 <= i < |l| => l[i].(name := Numbered(tag, i), email := Masked))
  }

  function AnonymizeQuiet(l: seq<QuietMember>): (r: seq<QuietMember>)
    ensures |r| == |l|
  {
    seq(|l|, i requires 0 <= i < |l| => QuietMember(Numbered(QuietTag, i), Masked))
  }

  /** Anonymous mode: the lists keep their lengths, order and counts; every entry's email is
      masked and its name is the list's tag followed by its 1-based position, so names
      stay distinct. */
  lemma AnonymizeSpec(l: seq<Author>, tag: string, q: seq<QuietMember>)
    ensures var r := AnonymizeAuthors(l, tag);
      && (forall i :: 0 <= i < |l| ==> r[i].commitCount == l[i].commitCount && r[i].repos == l[i].repos
                                       && r[i].lastCommitDate == l[i].lastCommitDate
                                       && r[i].email == Masked && r[i].name == Numbered(tag, i))
      && (forall i, j :: 0 <= i < j < |l| ==> r[i].name != r[j].name)
      && TotalCommits(r) == TotalCommits(l)
    ensures var rq := AnonymizeQuiet(q);
      && (forall i :: 0 <= i < |q| ==> rq[i] == QuietMember(Numbered(QuietTag, i), Masked))
      && (forall i, j :: 0 <= i < j < |q| ==> rq[i].name != rq[j].name)
  {
    var r := AnonymizeAuthors(l, tag);
    forall i, j | 0 <= i < j < |l| ensures r[i].name != r[j].name {
      if r[i].name == r[j].name { NumberedInjective(tag, i, j); }
    }
    var rq := AnonymizeQuiet(q);
    forall i, j | 0 <= i < j < |q| ensures rq[i].name != rq[j].name {
      if rq[i].name == rq[j].name { NumberedInjective(QuietTag, i, j); }
    }
    SameCounts(r, l);
  }

  lemma {:induction false} SameCounts(a: seq<Author>, b: seq<Author>)
    requires |a| == |b| && forall i :: 0 <= i < |a| ==> a[i].commitCount == b[i].commitCount
    ensures TotalCommits(a) == TotalCommits(b)
  {
    if a != [] {
      SameCounts(a[1..], b[1..]);
    }
  }

  // ---------------------------------------------------------------------------
  // The report
  // ---------------------------------------------------------------------------

  datatype Report = Report(totalCommits: nat, teamDataUnavailable: bool,
                           active: seq<Author>, quiet: seq<QuietMember>, former: seq<Author>)

  function ReportOf(commits: seq<Commit>, team: Option<seq<TeamMember>>, anonymous: bool): Report {
    var authors := Aggregate(commits);
    var c := Classify(authors, team);
    if anonymous then
      Report(TotalCommits(authors), c.teamDataUnavailable,
             AnonymizeAuthors(c.active, ActiveTag), AnonymizeQuiet(c.quiet),
             AnonymizeAuthors(c.former, FormerTag))
    else Report(TotalCommits(authors), c.teamDataUnavailable, c.active, c.quiet, c.former)
  }

  /** From the fetched commits to the output lists. */
  method BuildReport(commits: seq<Commit>, team: Option<seq<TeamMember>>, anonymous: bool) returns (r: Report)
    ensures r == ReportOf(commits, team, anonymous)
  {
    var authorMap := AggregateCommits(commits);
    var c := ClassifyContributors(authorMap, team);
    var active, quiet, former := c.active, c.quiet, c.former;
    if anonymous {
      active := AnonymizeAuthors(active, ActiveTag);
      quiet := AnonymizeQuiet(quiet);
      former := AnonymizeAuthors(former, FormerTag);
    }
    r := Report(TotalCommits(authorMap), c.teamDataUnavailable, active, quiet, former);
  }

  lemma {:induction false} SplitCommits(authors: seq<Author>, teamEmails: seq<string>)
    ensures var sp := SplitAuthors(authors, teamEmails);
      && TotalCommits(sp.active) + TotalCommits(sp.former) == TotalCommits(authors)
      && |sp.active| + |sp.former| == |authors|
  {
    if authors != [] {
      var prefix := authors[..|authors| - 1];
      var a := authors[|authors| - 1];
      assert authors == prefix + [a];
      SplitCommits(prefix, teamEmails);
      var prev := SplitAuthors(prefix, teamEmails);
      SumByAppend(prefix, a, CommitCountOf);
      SumByAppend(prev.active, a, CommitCountOf);
      SumByAppend(prev.former, a, CommitCountOf);
    }
  }

  /** Every author's commits are counted once across active and former, and without team
      data quiet and former are empty. */
  lemma ClassifyCounts(authors: seq<Author>, team: Option<seq<TeamMember>>)
    ensures var c := Classify(authors, team);
      && TotalCommits(c.active) + TotalCommits(c.former) == TotalCommits(authors)
      && |c.active| + |c.former| == |authors|
      && (team.None? <==> c.teamDataUnavailable)
      && (team.None? ==> c.quiet == [] && c.former == [])
  {
    match team
    case None =>
      SumBySortBy(authors, ByCommitsDesc, CommitCountOf);
    case Some(members) =>
      var sp := SplitAuthors(authors, TeamEmails(members));
      SplitCommits(authors, TeamEmails(members));
      SumBySortBy(sp.active, ByCommitsDesc, CommitCountOf);
      SumBySortBy(sp.former, ByCommitsDesc, CommitCountOf);
  }

  /** Whatever the commits, team data and mode: `totalCommits` counts the commits with an
      author email, and every one of them is counted once in active or former; without team
      data quiet and former are empty; and anonymous mode changes no list length. */
  lemma ReportSpec(commits: seq<Commit>, team: Option<seq<TeamMember>>, anonymous: bool)
    ensures var r := ReportOf(commits, team, anonymous);
      && r.totalCommits == KeyedCommits(commits)
      && TotalCommits(r.active) + TotalCommits(r.former) == r.totalCommits
      && |r.active| + |r.former| == |Aggregate(commits)|
      && (team.None? <==> r.teamDataUnavailable)
      && (team.None? ==> r.quiet == [] && r.former == [])
      && |r.quiet| == |Classify(Aggregate(commits), team).quiet|
  {
    var authors := Aggregate(commits);
    TotalCommitsSpec(commits);
    ClassifyCounts(authors, team);
    ReportKeepsCounts(commits, team, anonymous);
  }

  /** Anonymous mode keeps every list's length and commit total. */
  lemma ReportKeepsCounts(commits: seq<Commit>, team: Option<seq<TeamMember>>, anonymous: bool)
    ensures var r, authors := ReportOf(commits, team, anonymous), Aggregate(commits);
      var c := Classify(authors, team);
      && r.totalCommits == TotalCommits(authors)
      && r.teamDataUnavailable == c.teamDataUnavailable
      && TotalCommits(r.active) == TotalCommits(c.active) && |r.active| == |c.active|
      && TotalCommits(r.former) == TotalCommits(c.former) && |r.former| == |c.former|
      && |r.quiet| == |c.quiet|
  {
    var authors := Aggregate(commits);
    var c := Classify(authors, team);
    var r := ReportOf(commits, team, anonymous);
    if anonymous {
      var a, f := AnonymizeAuthors(c.active, ActiveTag), AnonymizeAuthors(c.former, FormerTag);
      assert r == Report(TotalCommits(authors), c.teamDataUnavailable, a, AnonymizeQuiet(c.quiet), f);
      SameCounts(a, c.active);
      SameCounts(f, c.former);
    } else {
      assert r == Report(TotalCommits(authors), c.teamDataUnavailable, c.active, c.quiet, c.former);
    }
  }

  /** For aggregated authors, whose keys are distinct, the team classification is a
      partition: see `WithTeamPartition`, `WithTeamQuiet` and `WithTeamDisjoint`. */
  lemma AggregatedHaveDistinctKeys(commits: seq<Commit>)
    ensures var authors := Aggregate(commits);
      forall a, b :: 0 <= a < b < |authors| ==> authors[a].email != authors[b].email
  {
    AggregateWellKeyed(commits);
  }
}
