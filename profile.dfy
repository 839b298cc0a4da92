/** The profile aggregator: class `User` of User.py (lines 52-200).

    Each `get_user_*` method of the source fetches something and stores a
    field, or loops over the fetched repository list. Here every fetched
    value is a parameter, one entry per repository where the source fetches
    once per repository. Every `Option` parameter holding a JSON value is
    what `RemoteFetcher.GetResponse` returns with `returnJson` true (the
    source's default): `None` for `Absent`, `Some(j)` for `Parsed(j)`.
    A Python exception becomes a failed `Outcome` or `Result`. A failed
    step leaves every field as it was, except that `get_user_repositories`
    and `get_user_projects` store the fetched value before taking its
    length, so a failed fetch there still stores `None`.
 */
module Profile {
  import opened Wrappers
  import CommitClassifier
  import ContributionParse

  /** An account as the API lists it (organization, follower, contributor). */
  datatype Account = Account(login: string)

  /** A repository record: the fields of the API's repository object the
      profile reads. */
  datatype Repo = Repo(name: string, owner: Account, stargazersCount: int, forks: int, languagesUrl: string)

  /** A project record; only the number of projects is used. */
  datatype Project = Project(name: string)

  /** A commit record: author name, message, and the URL of its details. */
  datatype Commit = Commit(authorName: string, message: string, url: string)

  /** The user-detail object; `created_at` may be JSON null. */
  datatype UserDetail = UserDetail(createdAt: Option<string>)

  // ---------------------------------------------------------------------
  // Totals

  /** The sum of `xs`. */
  function Sum(xs: seq<int>): int
  {
    if xs == [] then 0 else Sum(xs[..|xs| - 1]) + xs[|xs| - 1]
  }

  /** The star count of each repository, in order. */
  function StarCounts(repos: seq<Repo>): (cs: seq<int>)
    ensures |cs| == |repos|
    ensures forall i :: 0 <= i < |repos| ==> cs[i] == repos[i].stargazersCount
  {
    seq(|repos|, i requires 0 <= i < |repos| => repos[i].stargazersCount)
  }

  /** The fork count of each repository, in order. */
  function ForkCounts(repos: seq<Repo>): (cs: seq<int>)
    ensures |cs| == |repos|
    ensures forall i :: 0 <= i < |repos| ==> cs[i] == repos[i].forks
  {
    seq(|repos|, i requires 0 <= i < |repos| => repos[i].forks)
  }

  /** The sum of a concatenation is the sum of the sums. */
  lemma {:induction false} SumAppend(a: seq<int>, b: seq<int>)
    ensures Sum(a + b) == Sum(a) + Sum(b)
    decreases |b|
  {
    if b == [] {
      assert a + b == a;
    } else {
      var b' := b[..|b| - 1];
      assert (a + b)[..|a + b| - 1] == a + b';
      SumAppend(a, b');
    }
  }

  /** Totals do not depend on the order of the repositories. */
  lemma {:induction false} SumPermutation(a: seq<int>, b: seq<int>)
    requires multiset(a) == multiset(b)
    ensures Sum(a) == Sum(b)
    decreases |a|
  {
    if a != [] {
      var a', x := a[..|a| - 1], a[|a| - 1];
      assert a == a' + [x];
      assert x in multiset(b);
      var j :| 0 <= j < |b| && b[j] == x;
      var b' := b[..j] + b[j + 1..];
      assert b == b[..j] + [x] + b[j + 1..];
      assert multiset(b) == multiset(b[..j]) + multiset([x]) + multiset(b[j + 1..]);
      assert multiset(a) == multiset(a') + multiset([x]);
      assert multiset(b') == multiset(b[..j]) + multiset(b[j + 1..]);
      assert multiset(a') == multiset(a) - multiset{x};
      assert multiset(b') == multiset(b) - multiset{x};
      SumPermutation(a', b');
      SumAppend(b[..j] + [x], b[j + 1..]);
      SumAppend(b[..j], [x]);
      SumAppend(b[..j], b[j + 1..]);
      assert Sum([x]) == x by {
        assert [x][..0] == [];
      }
      assert Sum(a) == Sum(a') + x;
    } else {
      assert |b| == |multiset(b)| == 0;
    }
  }

  /** When every count is non-negative, so is the total. */
  lemma {:induction false} SumNonNegative(xs: seq<int>)
    requires forall i :: 0 <= i < |xs| ==> xs[i] >= 0
    ensures Sum(xs) >= 0
    decreases |xs|
  {
    if xs != [] {
      SumNonNegative(xs[..|xs| - 1]);
    }
  }

  // ---------------------------------------------------------------------
  // Languages

  /** No language key is listed twice (the keys of one JSON object). */
  predicate Distinct(keys: seq<string>)
  {
    forall i, j :: 0 <= i < j < |keys| ==> keys[i] != keys[j]
  }

  /** The number of payloads that list `lang`. */
  function ReposUsing(payloads: seq<seq<string>>, lang: string): (n: nat)
    ensures n <= |payloads|
  {
    if payloads == [] then 0
    else ReposUsing(payloads[..|payloads| - 1], lang) + (if lang in payloads[|payloads| - 1] then 1 else 0)
  }

  /** Every language listed by some payload. */
  function LanguagesUsed(payloads: seq<seq<string>>): set<string>
  {
    if payloads == [] then {}
    else
      var last := payloads[|payloads| - 1];
      LanguagesUsed(payloads[..|payloads| - 1]) + (set l | l in last)
  }

  /** The language-usage mapping: each listed language to the number of
      repositories listing it. */
  function LanguageUsage(payloads: seq<seq<string>>): map<string, nat>
  {
    map l | l in LanguagesUsed(payloads) :: ReposUsing(payloads, l)
  }

  /** A language is used exactly when some payload lists it, and then it
      is listed by at least one repository. */
  lemma {:induction false} LanguagesUsedIff(payloads: seq<seq<string>>, lang: string)
    ensures lang in LanguagesUsed(payloads) <==> exists i :: 0 <= i < |payloads| && lang in payloads[i]
    ensures lang in LanguagesUsed(payloads) <==> ReposUsing(payloads, lang) >= 1
    decreases |payloads|
  {
    if payloads != [] {
      var init := payloads[..|payloads| - 1];
      LanguagesUsedIff(init, lang);
      assert forall i :: 0 <= i < |init| ==> init[i] == payloads[i];
    }
  }

  /** Every key of the mapping comes from some payload, and its count lies
      between 1 and the number of repositories. */
  lemma LanguageUsageBounds(payloads: seq<seq<string>>, lang: string)
    requires lang in LanguageUsage(payloads)
    ensures exists i :: 0 <= i < |payloads| && lang in payloads[i]
    ensures 1 <= LanguageUsage(payloads)[lang] <= |payloads|
  {
    LanguagesUsedIff(payloads, lang);
  }

  /** `counts` holds, for the repositories of `prev` and the languages
      `done` of the repository being scanned, how many of them list each
      language. */
  predicate PartialTallies(counts: map<string, nat>, prev: seq<seq<string>>, done: seq<string>)
  {
    && counts.Keys == LanguagesUsed(prev) + (set l | l in done)
    && forall l :: l in counts ==> counts[l] == ReposUsing(prev, l) + (if l in done then 1 else 0)
  }

  /** One step of the inner loop: incrementing the count of a language not
      yet seen in the current repository, or entering it with count 1. */
  lemma TallyStep(counts: map<string, nat>, counts': map<string, nat>,
                  prev: seq<seq<string>>, done: seq<string>, lang: string)
    requires PartialTallies(counts, prev, done)
    requires lang !in done
    requires counts' == if lang in counts then counts[lang := counts[lang] + 1] else counts[lang := 1]
    ensures PartialTallies(counts', prev, done + [lang])
  {
    LanguagesUsedIff(prev, lang);
    var done' := done + [lang];
    assert forall l :: l in done' <==> l in done || l == lang;
  }

  /** A finished scan of `langs` tallies the repositories of `prev + [langs]`. */
  lemma TallyDone(counts: map<string, nat>, prev: seq<seq<string>>, langs: seq<string>)
    requires PartialTallies(counts, prev, langs)
    ensures counts == LanguageUsage(prev + [langs])
  {
    var next := prev + [langs];
    assert next[..|next| - 1] == prev;
    assert next[|next| - 1] == langs;
  }

  /** Before a repository is scanned, the tallies are the usage of the
      repositories already scanned. */
  lemma TallyStart(prev: seq<seq<string>>)
    ensures PartialTallies(LanguageUsage(prev), prev, [])
  {
  }

  /** Two repositories, one listing Python and the other Python and Go. */
  lemma LanguageUsageExample()
    ensures LanguageUsage([["Python"], ["Python", "Go"]]) == map["Python" := 2, "Go" := 1]
  {
    var ps := [["Python"], ["Python", "Go"]];
    assert ps[..1] == [["Python"]];
    assert ps[..1][..0] == [];
    assert LanguagesUsed(ps) == {"Python", "Go"};
  }

  // ---------------------------------------------------------------------
  // Contributed projects

  /** Some account of `accounts` has the login `username`. */
  predicate HasLogin(accounts: seq<Account>, username: string)
  {
    exists a :: a in accounts && a.login == username
  }

  /** The number of contributor lists that hold `username`. */
  function ContributedCount(contributorLists: seq<seq<Account>>, username: string): (n: nat)
    ensures n <= |contributorLists|
  {
    if contributorLists == [] then 0
    else
      var last := contributorLists[|contributorLists| - 1];
      ContributedCount(contributorLists[..|contributorLists| - 1], username) + (if HasLogin(last, username) then 1 else 0)
  }

  // ---------------------------------------------------------------------
  // Commit statistics

  /** Commits of one repository authored by `username`. */
  function AuthoredIn(commits: seq<Commit>, username: string): (n: nat)
    ensures n <= |commits|
  {
    if commits == [] then 0
    else AuthoredIn(commits[..|commits| - 1], username) + (if commits[|commits| - 1].authorName == username then 1 else 0)
  }

  /** Commits of one repository authored by `username` with a good message. */
  function GoodIn(commits: seq<Commit>, username: string, stem: string -> string): nat
  {
    if commits == [] then 0
    else
      var c := commits[|commits| - 1];
      GoodIn(commits[..|commits| - 1], username, stem)
        + (if c.authorName == username && CommitClassifier.IsGood(c.message, stem) then 1 else 0)
  }

  /** Commits authored by `username` over all repositories. */
  function TotalAuthored(commitLists: seq<seq<Commit>>, username: string): nat
  {
    if commitLists == [] then 0
    else TotalAuthored(commitLists[..|commitLists| - 1], username) + AuthoredIn(commitLists[|commitLists| - 1], username)
  }

  /** Authored commits with a good message over all repositories. */
  function TotalGood(commitLists: seq<seq<Commit>>, username: string, stem: string -> string): nat
  {
    if commitLists == [] then 0
    else TotalGood(commitLists[..|commitLists| - 1], username, stem) + GoodIn(commitLists[|commitLists| - 1], username, stem)
  }

  /** In one repository, good commits are among the authored ones. */
  lemma {:induction false} GoodInAtMostAuthored(commits: seq<Commit>, username: string, stem: string -> string)
    ensures GoodIn(commits, username, stem) <= AuthoredIn(commits, username)
    decreases |commits|
  {
    if commits != [] {
      GoodInAtMostAuthored(commits[..|commits| - 1], username, stem);
    }
  }

  /** Over all repositories, good commits are among the authored ones. */
  lemma {:induction false} GoodAtMostAuthored(commitLists: seq<seq<Commit>>, username: string, stem: string -> string)
    ensures TotalGood(commitLists, username, stem) <= TotalAuthored(commitLists, username)
    decreases |commitLists|
  {
    if commitLists != [] {
      GoodAtMostAuthored(commitLists[..|commitLists| - 1], username, stem);
      GoodInAtMostAuthored(commitLists[|commitLists| - 1], username, stem);
    }
  }

  /** The good-commit ratio is a fraction in [0, 1]. */
  lemma RatioInUnitInterval(commitLists: seq<seq<Commit>>, username: string, stem: string -> string)
    requires TotalAuthored(commitLists, username) > 0
    ensures 0.0 <= TotalGood(commitLists, username, stem) as real / TotalAuthored(commitLists, username) as real <= 1.0
  {
    GoodAtMostAuthored(commitLists, username, stem);
    FractionAtMostOne(TotalGood(commitLists, username, stem), TotalAuthored(commitLists, username));
  }

  /** A part over a positive whole is a fraction in [0, 1]. */
  lemma FractionAtMostOne(part: nat, whole: nat)
    requires part <= whole && whole > 0
    ensures 0.0 <= part as real / whole as real <= 1.0
  {
    var g, t := part as real, whole as real;
    var r := g / t;
    assert r * t == g;
  }

  /** Three commits by the user, "fix bug", "update readme" and "merge",
      with a stemmer that leaves words unchanged: two of three are good. */
  lemma CommitRatioExample(username: string)
    ensures var cs := [Commit(username, "fix bug", ""), Commit(username, "update readme", ""), Commit(username, "merge", "")];
      && TotalAuthored([cs], username) == 3
      && TotalGood([cs], username, CommitClassifier.Unstemmed) == 2
  {
    var id := CommitClassifier.Unstemmed;
    var c0, c1, c2 := Commit(username, "fix bug", ""), Commit(username, "update readme", ""), Commit(username, "merge", "");
    var cs := [c0, c1, c2];
    CommitClassifier.ActionMessagesAreGood();
    CommitClassifier.MergeIsNotGood();
    assert cs[..2] == [c0, c1] && cs[..2][..1] == [c0] && [c0][..0] == [];
    assert AuthoredIn([c0], username) == 1 && GoodIn([c0], username, id) == 1;
    assert AuthoredIn([c0, c1], username) == 2 && GoodIn([c0, c1], username, id) == 2;
    assert AuthoredIn(cs, username) == 3 && GoodIn(cs, username, id) == 2;
    var none: seq<seq<Commit>> := [];
    assert [cs][..0] == none;
  }

  // ---------------------------------------------------------------------
  // The profile

  /** `[i['login'] for i in accounts]`. */
  function Logins(accounts: seq<Account>): (ls: seq<string>)
    ensures |ls| == |accounts|
    ensures forall i :: 0 <= i < |accounts| ==> ls[i] == accounts[i].login
  {
    seq(|accounts|, i requires 0 <= i < |accounts| => accounts[i].login)
  }

  class User {
    const username: string
    var organizations: seq<string>
    var followers: Option<seq<Account>>
    var repos: Option<seq<Repo>>
    var projects: Option<seq<Project>>
    var repositoriesCount: nat
    var projectsCount: nat
    var languages: map<string, nat>
    var stars: int
    var forks: int
    var registrationDate: Option<string>
    var registeredDays: int
    var contributions: nat
    var goodCommitMessagesRatio: real

    /** The field defaults of `__init__`, before any fetch. */
    constructor (username: string)
      ensures this.username == username
      ensures organizations == [] && followers == None && repos == None && projects == None
      ensures repositoriesCount == 0 && projectsCount == 0 && languages == map[]
      ensures stars == 0 && forks == 0
      ensures registrationDate == None && registeredDays == 0
      ensures contributions == 0 && goodCommitMessagesRatio == 0.0
    {
      this.username := username;
      organizations, followers, repos, projects := [], None, None, None;
      repositoriesCount, projectsCount, languages := 0, 0, map[];
      stars, forks := 0, 0;
      registrationDate, registeredDays := None, 0;
      contributions, goodCommitMessagesRatio := 0, 0.0;
    }

    /** `get_user_organization`: the logins of the fetched organizations;
        iterating a failed fetch raises. */
    method GetUserOrganization(fetched: Option<seq<Account>>) returns (outcome: Outcome)
      modifies this`organizations
      ensures outcome == (if fetched.Some? then Pass else Fail(NotIterable))
      ensures fetched.Some? ==> organizations == Logins(fetched.value)
      ensures fetched.None? ==> organizations == old(organizations)
    {
      if fetched.None? {
        return Fail(NotIterable);
      }
      organizations := Logins(fetched.value);
      return Pass;
    }

    /** `get_user_followers`: the fetched value is stored as it is. */
    method GetUserFollowers(fetched: Option<seq<Account>>)
      modifies this`followers
      ensures followers == fetched
    {
      followers := fetched;
    }

    /** `get_user_repositories`: the list is stored, then its length is
        taken, which raises for a failed fetch. */
    method GetUserRepositories(fetched: Option<seq<Repo>>) returns (outcome: Outcome)
      modifies this`repos, this`repositoriesCount
      ensures repos == fetched
      ensures outcome == (if fetched.Some? then Pass else Fail(NotIterable))
      ensures fetched.Some? ==> repositoriesCount == |fetched.value|
      ensures fetched.None? ==> repositoriesCount == old(repositoriesCount)
    {
      repos := fetched;
      if fetched.None? {
        return Fail(NotIterable);
      }
      repositoriesCount := |fetched.value|;
      return Pass;
    }

    /** `get_user_projects`: as for repositories. */
    method GetUserProjects(fetched: Option<seq<Project>>) returns (outcome: Outcome)
      modifies this`projects, this`projectsCount
      ensures projects == fetched
      ensures outcome == (if fetched.Some? then Pass else Fail(NotIterable))
      ensures fetched.Some? ==> projectsCount == |fetched.value|
      ensures fetched.None? ==> projectsCount == old(projectsCount)
    {
      projects := fetched;
      if fetched.None? {
        return Fail(NotIterable);
      }
      projectsCount := |fetched.value|;
      return Pass;
    }

    /** `get_user_stars`: the total star count of the repositories. */
    method GetUserStars() returns (outcome: Outcome)
      modifies this`stars
      ensures outcome == (if repos.Some? then Pass else Fail(NotIterable))
      ensures repos.Some? ==> stars == Sum(StarCounts(repos.value))
      ensures repos.None? ==> stars == old(stars)
    {
      if repos.None? {
        return Fail(NotIterable);
      }
      var rs := repos.value;
      var total := 0;
      for i := 0 to |rs|
        invariant total == Sum(StarCounts(rs[..i]))
      {
        assert StarCounts(rs[..i + 1])[..i] == StarCounts(rs[..i]);
        total := total + rs[i].stargazersCount;
      }
      assert rs[..|rs|] == rs;
      stars := total;
      return Pass;
    }

    /** `get_user_forks`: the total fork count of the repositories. */
    method GetUserForks() returns (outcome: Outcome)
      modifies this`forks
      ensures outcome == (if repos.Some? then Pass else Fail(NotIterable))
      ensures repos.Some? ==> forks == Sum(ForkCounts(repos.value))
      ensures repos.None? ==> forks == old(forks)
    {
      if repos.None? {
        return Fail(NotIterable);
      }
      var rs := repos.value;
      var total := 0;
      for i := 0 to |rs|
        invariant total == Sum(ForkCounts(rs[..i]))
      {
        assert ForkCounts(rs[..i + 1])[..i] == ForkCounts(rs[..i]);
        total := total + rs[i].forks;
      }
      assert rs[..|rs|] == rs;
      forks := total;
      return Pass;
    }

    /** `get_user_languages`: `payloads[i]` is the response of the languages
        endpoint of the i-th repository; each language a repository lists
        counts that repository once. */
    method GetUserLanguages(payloads: seq<Option<seq<string>>>) returns (outcome: Outcome)
      requires repos.Some? ==> |payloads| == |repos.value|
      requires forall i :: 0 <= i < |payloads| && payloads[i].Some? ==> Distinct(payloads[i].value)
      modifies this`languages
      ensures outcome == (if repos.Some? && AllPresent(payloads) then Pass else Fail(NotIterable))
      ensures outcome.Pass? ==> languages == LanguageUsage(Values(payloads))
      ensures outcome.Fail? ==> languages == old(languages)
    {
      if repos.None? {
        return Fail(NotIterable);
      }
      var counts: map<string, nat> := map[];
      for i := 0 to |payloads|
        invariant AllPresent(payloads[..i])
        invariant languages == old(languages)
        invariant counts == LanguageUsage(Values(payloads[..i]))
      {
        if payloads[i].None? {
          assert !AllPresent(payloads);
          return Fail(NotIterable);
        }
        var prev := Values(payloads[..i]);
        var langs := payloads[i].value;
        TallyStart(prev);
        for j := 0 to |langs|
          invariant languages == old(languages)
          invariant PartialTallies(counts, prev, langs[..j])
        {
          var lang := langs[j];
          var before := counts;
          if lang in counts {
            counts := counts[lang := counts[lang] + 1];
          } else {
            counts := counts[lang := 1];
          }
          assert langs[..j + 1] == langs[..j] + [lang];
          TallyStep(before, counts, prev, langs[..j], lang);
        }
        assert langs[..|langs|] == langs;
        TallyDone(counts, prev, langs);
        assert Values(payloads[..i + 1]) == prev + [langs];
      }
      assert payloads[..|payloads|] == payloads;
      languages := counts;
      return Pass;
    }

    /** `get_user_registration_date`: the `created_at` field of the user
        detail; indexing a failed fetch raises. */
    method GetUserRegistrationDate(detail: Option<UserDetail>) returns (outcome: Outcome)
      modifies this`registrationDate
      ensures outcome == (if detail.Some? then Pass else Fail(NotSubscriptable))
      ensures detail.Some? ==> registrationDate == detail.value.createdAt
      ensures detail.None? ==> registrationDate == old(registrationDate)
    {
      if detail.None? {
        return Fail(NotSubscriptable);
      }
      registrationDate := detail.value.createdAt;
      return Pass;
    }

    /** `get_user_registered_days`: the account age at time `now`. Without a
        registration date nothing happens; `parseTimestamp` stands for
        `strptime` with the ISO-8601 "Z" format and fails on other text. */
    method GetUserRegisteredDays(now: int, parseTimestamp: string -> Option<int>) returns (outcome: Outcome)
      modifies this`registeredDays
      ensures registrationDate.None? ==> outcome == Pass && registeredDays == old(registeredDays)
      ensures registrationDate.Some? ==>
        var parsed := parseTimestamp(registrationDate.value);
        && outcome == (if parsed.Some? then Pass else Fail(BadValue))
        && registeredDays == (if parsed.Some? then now - parsed.value else old(registeredDays))
    {
      if registrationDate.None? {
        return Pass;
      }
      var parsed := parseTimestamp(registrationDate.value);
      if parsed.None? {
        return Fail(BadValue);
      }
      registeredDays := now - parsed.value;
      return Pass;
    }

    /** `get_user_contributions`: `heading` is the text of the heading that
        follows the yearly-contributions container of the profile page, or
        `None` when the page, the container or the heading is missing. */
    method GetUserContributions(heading: Option<string>) returns (outcome: Outcome)
      modifies this`contributions
      ensures heading.None? ==> outcome == Fail(NoAttribute) && contributions == old(contributions)
      ensures heading.Some? ==>
        var parsed := ContributionParse.ParseContributions(heading.value);
        && outcome == (if parsed.Success? then Pass else Fail(parsed.error))
        && contributions == (if parsed.Success? then parsed.value else old(contributions))
    {
      if heading.None? {
        return Fail(NoAttribute);
      }
      var parsed := ContributionParse.ParseContributions(heading.value);
      if parsed.Failure? {
        return Fail(parsed.error);
      }
      contributions := parsed.value;
      return Pass;
    }

    /** `get_user_contributed_projects`: the number of repositories whose
        contributor list (`contributors[i]`, fetched for the i-th
        repository) holds the user's login. */
    method GetUserContributedProjects(contributors: seq<Option<seq<Account>>>) returns (result: Result<nat>)
      requires repos.Some? ==> |contributors| == |repos.value|
      ensures result.Success? <==> repos.Some? && AllPresent(contributors)
      ensures result.Failure? ==> result.error == NotIterable
      ensures result.Success? ==> result.value == ContributedCount(Values(contributors), username)
      ensures result.Success? ==> result.value <= |repos.value|
    {
      if repos.None? {
        return Failure(NotIterable);
      }
      var contributed := 0;
      for i := 0 to |contributors|
        invariant AllPresent(contributors[..i])
        invariant contributed == ContributedCount(Values(contributors[..i]), username)
      {
        if contributors[i].None? {
          assert !AllPresent(contributors);
          return Failure(NotIterable);
        }
        var list := contributors[i].value;
        var next := Values(contributors[..i + 1]);
        assert next[..|next| - 1] == Values(contributors[..i]);
        if exists c :: c in list && c.login == username {
          contributed := contributed + 1;
        }
      }
      assert contributors[..|contributors|] == contributors;
      return Success(contributed);
    }

    /** `get_user_commit_data`: `commitLists[i]` is the commit list fetched
        for the i-th repository. The ratio of good messages among the
        user's commits is stored; with no commit by the user the division
        raises. */
    method GetUserCommitData(commitLists: seq<Option<seq<Commit>>>, stem: string -> string) returns (outcome: Outcome)
      requires repos.Some? ==> |commitLists| == |repos.value|
      modifies this`goodCommitMessagesRatio
      ensures !(repos.Some? && AllPresent(commitLists)) ==>
        outcome == Fail(NotIterable) && goodCommitMessagesRatio == old(goodCommitMessagesRatio)
      ensures repos.Some? && AllPresent(commitLists) ==>
        var total := TotalAuthored(Values(commitLists), username);
        var good := TotalGood(Values(commitLists), username, stem);
        && outcome == (if total > 0 then Pass else Fail(ZeroDivision))
        && goodCommitMessagesRatio == (if total > 0 then good as real / total as real else old(goodCommitMessagesRatio))
    {
      if repos.None? {
        return Fail(NotIterable);
      }
      var totalCommits: nat := 0;
      var goodCommits: nat := 0;
      for i := 0 to |commitLists|
        invariant AllPresent(commitLists[..i])
        invariant goodCommitMessagesRatio == old(goodCommitMessagesRatio)
        invariant totalCommits == TotalAuthored(Values(commitLists[..i]), username)
        invariant goodCommits == TotalGood(Values(commitLists[..i]), username, stem)
      {
        if commitLists[i].None? {
          assert !AllPresent(commitLists);
          return Fail(NotIterable);
        }
        var prev := Values(commitLists[..i]);
        var commits := commitLists[i].value;
        for j := 0 to |commits|
          invariant goodCommitMessagesRatio == old(goodCommitMessagesRatio)
          invariant totalCommits == TotalAuthored(prev, username) + AuthoredIn(commits[..j], username)
          invariant goodCommits == TotalGood(prev, username, stem) + GoodIn(commits[..j], username, stem)
        {
          var commit := commits[j];
          assert commits[..j + 1][..j] == commits[..j];
          if commit.authorName == username {
            totalCommits := totalCommits + 1;
            var good := CommitClassifier.IsGoodCommitMessage(commit.message, stem);
            if good {
              goodCommits := goodCommits + 1;
            }
          }
        }
        assert commits[..|commits|] == commits;
        var next := Values(commitLists[..i + 1]);
        assert next[..|next| - 1] == prev;
      }
      assert commitLists[..|commitLists|] == commitLists;
      if totalCommits == 0 {
        return Fail(ZeroDivision);
      }
      goodCommitMessagesRatio := goodCommits as real / totalCommits as real;
      return Pass;
    }
  }
}
