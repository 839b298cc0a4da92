# User profile aggregation, modelled in Dafny

This project models `User.py`, a script that builds a profile of a GitHub
user. It models the parts that contain logic:

- the commit-message classifier `is_good_commit_message`. It lower-cases the
  message, splits it into `\w+` tokens and asks whether some token's stem is the
  stem of one of eight action words;
- the decisions inside `get_response`. One chooses the URL: an endpoint that
  contains `https` is used as it is, any other goes under the API base. The
  other chooses the result from the status code and the `return_json` flag;
- class `User`. Its methods store fetched lists and their lengths, and they
  total stars and forks. They also count repositories per language, count the
  repositories the user contributed to, and compute the ratio of good commit
  messages among the user's own commits;
- reading the yearly contribution count from the heading of the profile page
  (`"1,234 contributions in the last year"` gives 1234).

Nothing is fetched. Every remote result is a parameter. An `Option` value
for a JSON response stands for the result of `get_response` with `return_json` true:
`None` where `RemoteFetcher.GetResponse` gives `Absent`, `Some(j)` where it
gives `Parsed(j)`. A list
with one entry per repository stands for the source's one request per
repository. Three library calls are also parameters: Porter's stemmer
(`stem: string -> string`), `strptime` (`parseTimestamp`) and the clock
(`now`). So every property proved here holds for any stemmer, any timestamp
parser and any time.

Where the source raises a Python exception, the model returns a failure value
that says which kind (`Wrappers.Error`). A failing step leaves every field
unchanged except the stored response itself: `get_user_repositories` and
`get_user_projects` store the fetched value before taking its `len()`
(User.py:93-94, 99-100), so a failed fetch there stores `None` and then
raises. The model does the same. Every other step assigns its field only
once nothing can fail any more.

Files: `wrappers.dfy` (Option, Result, Outcome, Error), `classifier.dfy`
(module `CommitClassifier`), `fetcher.dfy` (module `RemoteFetcher`),
`contributions.dfy` (module `ContributionParse`), `profile.dfy` (module
`Profile`, class `User`).

Where the code raises, the model returns a failure value:

- Iterating a missing response, or taking its `len()`, raises `TypeError`.
  The model returns `Fail(NotIterable)`, which covers one repository's
  missing languages response too.
- When the user made no commit, the division raises `ZeroDivisionError`.
  The model returns `Fail(ZeroDivision)` and leaves the ratio unchanged.
- In the code, a missing contributions container or heading raises
  `AttributeError`. A heading with no word raises `IndexError`, and a
  non-numeric first word raises `ValueError`. The model keeps these as three
  distinct errors.
- The source stores the project list in an attribute spelled `progects`. In the
  model the field is `projects`.

## Model

| member | source | states |
|---|---|---|
| CommitClassifier.IsGoodCommitMessage | User.py:8-26 | The result is true exactly when some `\w+` token of the lower-cased message has a stem in the set of stems of the eight vocabulary words. The scan stops at the first such token. |
| CommitClassifier.Tokens | User.py:19 | Every token `re.findall(r'\w+', …)` returns is a non-empty run of word characters. |
| CommitClassifier.WordRunLength | User.py:19 | A match of `\w+` extends as far as it can: the run is all word characters, and the character after it, if any, is not a word character. |
| CommitClassifier.TokensEmptyIff | User.py:19 | A string has no tokens if and only if it contains no word character. |
| CommitClassifier.TokensSplit | User.py:19 | Tokenising splits at any non-word character: the tokens of `x + [c] + y` are the tokens of `x` followed by those of `y`. |
| CommitClassifier.WordBetweenBoundariesIsToken | User.py:19 | A word bounded on each side by the end of the string or by a non-word character is one of the string's tokens. |
| CommitClassifier.NoWordCharIsNotGood | User.py:19-26 | A message with no word character is never good, under any stemmer. |
| CommitClassifier.EmptyIsNotGood | User.py:19-26 | The empty message is not good. |
| CommitClassifier.VocabularyWordIsGood | User.py:10-24 | A message containing one of fix, optimize, add, test, clean, update, refactor or implement, in any letter case, as a whole token is good under any stemmer. |
| CommitClassifier.LeadingVocabularyWordIsGood | User.py:10-24 | A message that starts with a vocabulary word, followed by the end or by a non-word character, is good under any stemmer. |
| CommitClassifier.ActionMessagesAreGood | User.py:10-26 | With words left unstemmed, "fix bug" and "update readme" are both good. |
| CommitClassifier.MergeIsNotGood | User.py:10-26 | With words left unstemmed, "merge" is not good. |
| RemoteFetcher.Contains | User.py:34 | Python's `'https' in endpoint_url` is true exactly when the substring occurs at some position. |
| RemoteFetcher.ResolveUrl | User.py:34-37 | An endpoint containing `https` is used unchanged. Any other endpoint becomes `https://api.github.com/` followed by the endpoint. The resulting URL always contains `https`. |
| RemoteFetcher.ResolveUrlIdempotent | User.py:34-37 | Resolving an already resolved URL changes nothing, so an address is never prefixed twice. |
| RemoteFetcher.SelectResult | User.py:41-49 | The decoded body is returned exactly when the status is 200 and `return_json` is true. The raw response is returned exactly when the status is 200 and the flag is false. `None` is returned exactly when the status is anything else. |
| RemoteFetcher.GetResponse | User.py:28-49 | One request goes to the resolved URL. The result is absent exactly when that request's status is not 200. Otherwise it is the decoded body or the raw response, as the flag says. |
| ContributionParse.FirstField | User.py:149 | `text.split()[0]` is absent exactly when the text is all whitespace. Otherwise it is the first maximal run of non-whitespace, and only whitespace comes before it. |
| ContributionParse.StripCommas | User.py:149 | After `.replace(',', '')` no comma is left, and the text is no longer than before. |
| ContributionParse.ParseContributions | User.py:149 | IndexError exactly when the heading has no field, ValueError when the first field without its commas is not a decimal numeral, and otherwise the value of that numeral. |
| ContributionParse.StripCommasOne | User.py:149 | On one character, `.replace(',', '')` removes a comma and keeps anything else. |
| ContributionParse.StripCommasAppend | User.py:149 | Removing commas distributes over concatenation. With `StripCommasOne` this fixes the result on every string: each non-comma character is kept, in order. |
| ContributionParse.StripCommasKeeps | User.py:149 | Removing commas keeps every other character with its multiplicity: the result's multiset is the input's with the commas taken out. |
| ContributionParse.DecimalValueOfDecimal | User.py:149 | Reading the decimal numeral of `n` gives `n` back. |
| ContributionParse.StripWithThousands | User.py:149 | Removing the separators from a comma-grouped numeral gives the plain numeral. |
| ContributionParse.ParseWithThousands | User.py:149 | Round trip: a heading that starts with the comma-grouped numeral of `n`, followed by whitespace or by nothing, parses to `n`. |
| ContributionParse.ParseExample | User.py:149 | "1,234 contributions in the last year" parses to 1234. |
| Profile.SumAppend | User.py:102-112 | The total of a concatenation of repository lists is the sum of their totals. |
| Profile.SumPermutation | User.py:102-112 | Totals do not depend on the order of the repositories: two lists with the same multiset of counts have the same sum. |
| Profile.SumNonNegative | User.py:102-112 | When every count is non-negative, so is the total. |
| Profile.ReposUsing | User.py:116-126 | The number of repositories that list a language is at most the number of repositories. |
| Profile.LanguagesUsedIff | User.py:116-126 | A language is a key of the usage map exactly when some repository's payload lists it, which is exactly when at least one repository counts for it. |
| Profile.LanguageUsageBounds | User.py:116-126 | Every key of the usage map comes from some payload, and its value lies between 1 and the number of repositories. |
| Profile.LanguageUsageExample | User.py:116-126 | Two repositories listing Python, and Python and Go, give the map Python 2, Go 1. |
| Profile.TallyStep | User.py:121-125 | One step of the inner loop either adds 1 to a language already in the map or enters a new language with 1. Either way the map then counts each repository once per language. |
| Profile.TallyDone | User.py:118-125 | Once a repository's payload has been scanned, the map is the usage of all repositories scanned so far. |
| Profile.ContributedCount | User.py:155-168 | The number of repositories whose contributor list holds the user's login is at most the number of repositories. |
| Profile.AuthoredIn | User.py:184-185 | The commits authored by the user in one repository are at most all of its commits. |
| Profile.GoodInAtMostAuthored | User.py:184-190 | In one repository, the good-message commits are among the user's commits. |
| Profile.GoodAtMostAuthored | User.py:172-190 | Over all repositories, `good_message_commits <= total_commits_number`. |
| Profile.RatioInUnitInterval | User.py:200 | When the user made any commit, the good-commit ratio lies in [0, 1]. |
| Profile.CommitRatioExample | User.py:172-200 | Three commits by the user, "fix bug", "update readme" and "merge", with words left unstemmed, give 2 good commits out of 3. |
| Profile.User.constructor | User.py:54-64 | The defaults: no languages, every count and total 0, ratio 0, no registration date, and nothing fetched yet. |
| Profile.User.GetUserOrganization | User.py:79-83 | Stores the organization logins. A failed fetch raises TypeError and leaves the field unchanged. |
| Profile.User.GetUserFollowers | User.py:86-88 | Stores the fetched follower list as it is, absence included. |
| Profile.User.GetUserRepositories | User.py:91-94 | Stores the fetched list, absence included, and sets `repositoriesCount` to its length. For an absent list it raises TypeError and leaves the count unchanged. |
| Profile.User.GetUserProjects | User.py:97-100 | The same rule for projects and `projectsCount`. |
| Profile.User.GetUserStars | User.py:102-106 | `stars` becomes the sum of `stargazers_count` over the repositories, which is 0 for none. Absent repositories raise TypeError and leave `stars` unchanged. Nothing else changes. |
| Profile.User.GetUserForks | User.py:108-112 | The same as for stars, with the `forks` counts. |
| Profile.User.GetUserLanguages | User.py:116-126 | On success, `languages` maps each language listed by some repository to the number of repositories listing it. Each payload is a JSON object, so its keys are distinct. Missing repositories or a missing payload raise TypeError and the map is unchanged. |
| Profile.User.GetUserRegistrationDate | User.py:129-131 | Stores the `created_at` of the user detail. A failed fetch raises TypeError and leaves the field unchanged. |
| Profile.User.GetUserRegisteredDays | User.py:134-138 | With no registration date it does nothing. Otherwise the age is `now` minus the parsed timestamp, and a timestamp that does not parse raises ValueError. |
| Profile.User.GetUserContributions | User.py:141-151 | A missing page, container or heading raises AttributeError. Otherwise the count is the parse of the heading text, and on a parse error nothing is stored. |
| Profile.User.GetUserContributedProjects | User.py:153-168 | The result is the number of repositories whose contributor list holds the user's login, at most the number of repositories. A missing repository list or contributor list raises TypeError. |
| Profile.User.GetUserCommitData | User.py:170-200 | The ratio becomes the user's good-message commits divided by the user's commits, both counted over all repositories. When the user made no commit this raises ZeroDivisionError, and a missing list raises TypeError. In both cases the ratio is unchanged. |

## Left out

- HTTP transport, the token and headers, and the failure `print` (User.py:30-32, 39, 47-48) are network I/O. The transport is a parameter from URL to response.
- `response.json()` (User.py:42) is a parameter `decode`. A body that is not valid JSON, which makes the source raise, is not modelled.
- Typed records stand in for the JSON objects. So a missing key, which makes Python raise KeyError, is not modelled. Neither is `int()` of a count that is not an integer (User.py:105, 111).
- The per-commit detail fetch and the loop over its file names (User.py:192-198) have no observable effect and are not modelled. A failed detail fetch, which would raise there, is not represented.
- The search for the `js-yearly-contributions` div and the `h2` after it (User.py:147-148) is done by an HTML library. The model starts from the heading text, or from its absence.
- `json.dumps` of the count (User.py:151) is library serialisation. The field holds the integer.
- `datetime.strptime` and `datetime.now()` (User.py:137-138) are a library parser and the clock. Both are parameters, and the age is an integer difference of timestamps.
- Porter's stemmer (User.py:2, 15) is a foreign library. It is the parameter `stem`.
- `\w`, `str.lower()` and the whitespace of `str.split()` are modelled on ASCII only. Python's Unicode word characters, case mappings and whitespace outside ASCII are not.
- `int()` is modelled for ASCII decimal digits only. Signs, underscores and non-ASCII digits are not.
- The ratio (User.py:200) is an exact rational number, not an IEEE double.
- Profile.User.constructor: `__init__` also runs the ten fetch steps in a fixed order (User.py:65-74). In the model that sequence is not one operation: each step is a method of its own, called on a constructed profile. An exception from an early step, which aborts construction in the source, is not represented.
- The model starts `organizations` as empty and `repos`, `projects` and `followers` as absent. In the source these attributes do not exist before their step runs (User.py:54-64 never sets them), and reading them raises AttributeError rather than TypeError.
- The default `return_json = True` of `get_response` (User.py:28) has no counterpart: `GetResponse` always takes the flag. Every call in the class except the profile-page request (User.py:145) uses the default, which is why those `Option` inputs of `Profile` stand only for `Parsed` or `Absent`; the page request asks for the raw response, and `GetUserContributions` starts from the heading found in it.
- The module-level `User('Amina19058')` call and the commented-out prints (User.py:203-218) are a script entry point.
