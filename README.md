# Bitbucket pull-request coverage status: the REST client core

This project models, in Dafny, the part of the Jenkins plugin that talks to Bitbucket
Cloud's REST API (version 2.0): the `ApiClient` class. It covers:

- URL construction: `v2` appends the owner, a slash, the repository name and a path to the fixed
  base `https://bitbucket.org/api/2.0/repositories/`.
- The pagination loop `getAllValues`. It asks for `rootUrl?pagelen=N`, appends each page's `values`,
  and follows `next` until it is null. It gives back what it has gathered when a request or its
  decoding fails.
- The listings built on that loop: pull requests fifty per page, comments a hundred per page.
- The own-comment filter: the comment has an author whose UUID equals the session's UUID,
  ignoring case.
- The stale-report filter and its deletions: a global comment (no inline anchor) whose text
  carries the coverage badge URL. Each deletion is a DELETE of `.../pullrequests/{id}/comments/{commentId}`.
- The fallbacks of the user lookup and of posting a comment.

The HTTP transport and the JSON codec are replaced by what they hand back. A `PageSource<T>`
maps a URL to the decoded page, or to `None` when anything in fetching or decoding that page threw.
A page that decodes with a null `values` list also maps to `None`: appending it throws, and the
loop stops exactly as after a failed request.
`UserReply` and `PostReply` play the same part for the user lookup and the comment post. Every
request the client sends (GET, POST, DELETE) is appended to the ghost log `ApiClient.sent`, so the
contracts can state exactly which requests go out and in which order.

Files:

- `bitbucket.dfy` (module `Bitbucket`): the API's values (comment, author, inline anchor, pull request, page, request).
- `java_strings.dfy` (module `JavaStrings`): `Integer.toString`, `String.contains`, `String.equalsIgnoreCase`.
- `seqs.dfy` (module `Seqs`): stream `filter` over sequences.
- `pagination.dfy` (module `Pagination`): the page oracle and the walk the listing loop performs.
- `api_client.dfy` (module `Client`): URLs, the two filters, the user-lookup and post fallbacks, and the class `ApiClient`.

`SHIELDS_BADGE_COVERAGE_URL` is defined in a file that is not part of this model. It is the
constant `Client.ShieldsBadgeCoverageUrl`, left without a value; every proof holds whatever its text is.

## Model

All source paths are in `src/main/java/com/github/adiesner/jenkins/bitbucketprcoveragestatus/bitbucket/`.

| member | source | states |
|---|---|---|
| Client.ApiClient.constructor | src/main/java/com/github/adiesner/jenkins/bitbucketprcoveragestatus/bitbucket/ApiClient.java:84-96 | stores the credential pair, owner, repository and name; the identity is the corrected lookup `Client.LoggedInUserUuid` (the user's UUID, or the empty string after any failure), so the constructor never throws; the GET of `https://api.bitbucket.org/2.0/user` is the only request sent |
| Client.ApiClient.GetAllValues | src/main/java/com/github/adiesner/jenkins/bitbucketprcoveragestatus/bitbucket/ApiClient.java:155-171 | the result is the items of the walk from `rootUrl?pagelen=N`, page after page, and the GETs sent are that walk's URLs in order |
| Pagination.Trace | src/main/java/com/github/adiesner/jenkins/bitbucketprcoveragestatus/bitbucket/ApiClient.java:158-166 | the walk starts at the given URL; every request but the last succeeded and its `next` is the following URL; the last failed or had no `next` |
| Pagination.WalkIsUnique | src/main/java/com/github/adiesner/jenkins/bitbucketprcoveragestatus/bitbucket/ApiClient.java:158-166 | any sequence of requests with the shape above is exactly the walk, so the loop's requests are determined by the server's answers |
| Pagination.ValuesOfSnoc | src/main/java/com/github/adiesner/jenkins/bitbucketprcoveragestatus/bitbucket/ApiClient.java:164 | one more fetched page appends its items after those already gathered, so nothing is dropped, duplicated or reordered |
| Pagination.FailureEndsWalk | src/main/java/com/github/adiesner/jenkins/bitbucketprcoveragestatus/bitbucket/ApiClient.java:156-170 | a failed request is the last one, and the result is the items of the pages before it (none if the first request fails) |
| Pagination.FailureYieldsPrefix | src/main/java/com/github/adiesner/jenkins/bitbucketprcoveragestatus/bitbucket/ApiClient.java:156-170 | when one URL fails, the result is a prefix of what a server answering at that URL would have produced |
| Client.ApiClient.GetPullRequests | src/main/java/com/github/adiesner/jenkins/bitbucketprcoveragestatus/bitbucket/ApiClient.java:98-100 | lists from `v2("/pullrequests/")` with page size 50: result and GETs are those of that walk |
| Client.ApiClient.GetPullRequestComments | src/main/java/com/github/adiesner/jenkins/bitbucketprcoveragestatus/bitbucket/ApiClient.java:102-104 | lists from `v2("/pullrequests/{id}/comments")` with page size 100: result and GETs are those of that walk |
| Client.PageSizesInDecimal | src/main/java/com/github/adiesner/jenkins/bitbucketprcoveragestatus/bitbucket/ApiClient.java:98-104 | the page sizes render as `50` and `100` |
| Client.ListingUrls | src/main/java/com/github/adiesner/jenkins/bitbucketprcoveragestatus/bitbucket/ApiClient.java:98-104 | the first request of each listing is its `v2` URL followed by `?pagelen=50` or `?pagelen=100` |
| Client.V2 | src/main/java/com/github/adiesner/jenkins/bitbucketprcoveragestatus/bitbucket/ApiClient.java:177-183 | the URL is laid out as the API base, the owner, one slash, the repository name and the path, at exactly those positions and with nothing else |
| Client.CommentUrl | src/main/java/com/github/adiesner/jenkins/bitbucketprcoveragestatus/bitbucket/ApiClient.java:126-128 | a comment's DELETE URL is its pull request's comment collection URL followed by `/` and the comment id |
| Client.V2Injective | src/main/java/com/github/adiesner/jenkins/bitbucketprcoveragestatus/bitbucket/ApiClient.java:177-183 | `v2` is base, owner, `/`, repository, path concatenated, and within one repository different paths give different URLs |
| Client.CommentUrlInjective | src/main/java/com/github/adiesner/jenkins/bitbucketprcoveragestatus/bitbucket/ApiClient.java:126-128 | within one pull request, different comment ids give different DELETE URLs |
| JavaStrings.DecimalString | src/main/java/com/github/adiesner/jenkins/bitbucketprcoveragestatus/bitbucket/ApiClient.java:119 | `toString` of an id is non-empty, starts with `-` exactly when the id is negative, and is otherwise all decimal digits |
| JavaStrings.DecimalRoundTrip | src/main/java/com/github/adiesner/jenkins/bitbucketprcoveragestatus/bitbucket/ApiClient.java:119 | the decimal rendering of an id (`toString`) reads back as that id |
| JavaStrings.DecimalStringInjective | src/main/java/com/github/adiesner/jenkins/bitbucketprcoveragestatus/bitbucket/ApiClient.java:119 | different ids have different decimal renderings |
| JavaStrings.Contains | src/main/java/com/github/adiesner/jenkins/bitbucketprcoveragestatus/bitbucket/ApiClient.java:118 | `contains` holds exactly when the marker occurs at some position of the content |
| JavaStrings.EqualsIgnoreCase | src/main/java/com/github/adiesner/jenkins/bitbucketprcoveragestatus/bitbucket/ApiClient.java:110 | equal strings match, and strings of different lengths never do |
| JavaStrings.EqualsIgnoreCaseIffSameLower | src/main/java/com/github/adiesner/jenkins/bitbucketprcoveragestatus/bitbucket/ApiClient.java:110 | `equalsIgnoreCase` holds exactly when both strings fold to the same lower-case string |
| Seqs.Filter | src/main/java/com/github/adiesner/jenkins/bitbucketprcoveragestatus/bitbucket/ApiClient.java:108-111 | an element is in the result if and only if it is in the input and passes the test |
| Seqs.FilterSelects | src/main/java/com/github/adiesner/jenkins/bitbucketprcoveragestatus/bitbucket/ApiClient.java:108-111 | the result is the subsequence of the input at exactly the positions that pass, in increasing order |
| Seqs.FilterAppend | src/main/java/com/github/adiesner/jenkins/bitbucketprcoveragestatus/bitbucket/ApiClient.java:116-119 | filtering a concatenation filters each part in turn, which is what processing one element at a time relies on |
| Client.OwnComments | src/main/java/com/github/adiesner/jenkins/bitbucketprcoveragestatus/bitbucket/ApiClient.java:106-112 | a comment is kept if and only if it is listed, has an author, and that author's UUID equals the identity ignoring case |
| Client.OwnCommentsIgnoreCase | src/main/java/com/github/adiesner/jenkins/bitbucketprcoveragestatus/bitbucket/ApiClient.java:110 | identities that differ only in letter case select the same comments |
| Client.OwnCommentsOfEmptyIdentity | src/main/java/com/github/adiesner/jenkins/bitbucketprcoveragestatus/bitbucket/ApiClient.java:130-140 | with the empty identity left by a failed lookup, only authors with an empty UUID count as own |
| Client.ApiClient.FindOwnPullRequestComments | src/main/java/com/github/adiesner/jenkins/bitbucketprcoveragestatus/bitbucket/ApiClient.java:106-112 | the result is the own-comment filter applied to the full comment listing; the GETs are those of the listing |
| Client.CoverageReports | src/main/java/com/github/adiesner/jenkins/bitbucketprcoveragestatus/bitbucket/ApiClient.java:114-120 | a comment is selected if and only if it has no inline anchor and its content contains the badge URL |
| Client.ApiClient.DeletePreviousGlobalComments | src/main/java/com/github/adiesner/jenkins/bitbucketprcoveragestatus/bitbucket/ApiClient.java:114-120 | the requests sent are one DELETE per selected comment, in list order, and nothing else |
| Client.ApiClient.DeletePullRequestComment | src/main/java/com/github/adiesner/jenkins/bitbucketprcoveragestatus/bitbucket/ApiClient.java:126-128 | sends exactly one DELETE of `v2("/pullrequests/{id}/comments/{commentId}")` |
| Client.DeletesExactlyCoverageReports | src/main/java/com/github/adiesner/jenkins/bitbucketprcoveragestatus/bitbucket/ApiClient.java:114-120 | a comment's URL is deleted if and only if the comment is a global coverage report, and every DELETE targets such a comment |
| Client.DeletesOnlyOwnCoverageReports | src/main/java/com/github/adiesner/jenkins/bitbucketprcoveragestatus/bitbucket/ApiClient.java:106-120 | of all listed comments, a DELETE is sent for one if and only if it is own, global and carries the badge |
| Client.LoggedInUserUuidAsWritten | src/main/java/com/github/adiesner/jenkins/bitbucketprcoveragestatus/bitbucket/ApiClient.java:130-140 | as written: a malformed body gives the empty identity, but a failed request or a JSON null body throws a NullPointerException |
| Client.UnansweredLookupThrows | src/main/java/com/github/adiesner/jenkins/bitbucketprcoveragestatus/bitbucket/ApiClient.java:130-140 | a user lookup whose request fails makes the lookup throw |
| Client.LoggedInUserUuid | src/main/java/com/github/adiesner/jenkins/bitbucketprcoveragestatus/bitbucket/ApiClient.java:130-140 | the identity is the decoded user's UUID, and the empty string after any failure |
| Client.LookupAgreesWhereSourceReturns | src/main/java/com/github/adiesner/jenkins/bitbucketprcoveragestatus/bitbucket/ApiClient.java:130-140 | whenever the lookup as written returns, the corrected lookup returns the same identity |
| Client.CreatedComment | src/main/java/com/github/adiesner/jenkins/bitbucketprcoveragestatus/bitbucket/ApiClient.java:142-153 | the created comment is returned only when the response decoded, and null (None) after any failure |
| Client.ApiClient.PostPullRequestComment | src/main/java/com/github/adiesner/jenkins/bitbucketprcoveragestatus/bitbucket/ApiClient.java:142-153 | sends one POST of the text to the pull request's comment collection and returns the created comment or None, never throwing |

## Left out

- Client.ApiClient.GetAllValues: requires that the chain of `next` links ends within a ghost bound (`EndsWithin`). The source has no cap: on a server whose links cycle it requests pages forever. That case is not modelled, and no repeat detection is claimed.
- JavaStrings.EqualsIgnoreCase: folds only the ASCII letters. `Character.toUpperCase` and `toLowerCase` also fold other Unicode letters, and those comparisons are not modelled. Bitbucket UUIDs are ASCII.
- Client.ApiClient.constructor: takes its identity from the corrected lookup and so never throws. The source's constructor throws a NullPointerException when the user request fails or its body is JSON null; that behaviour exists only as `Client.LoggedInUserUuidAsWritten` (see Findings).
- Client.LoggedInUserUuid: a user reply that decodes to a user without a `uuid` is not modelled. The source then stores null as the identity, and `equalsIgnoreCase(null)` keeps no comment, whereas the model's identity is always a string.
- Client.ApiClient.DeletePreviousGlobalComments: always sends every DELETE. In the source, a listed comment with a null `id` or a null `content` throws a NullPointerException inside the loop, so the remaining DELETEs are not sent and the exception leaves the method. Comments are modelled with a non-null id and content.
- Client.OwnComments: assumes every author has a non-null UUID. In the source, a null UUID would throw a NullPointerException in the filter at line 110.
- Client.ApiClient.PostPullRequestComment: always records the POST. In the source, if serializing the comment threw, `post` would return null without sending anything; serializing one string field does not fail in practice.
- `HttpClientFactory` is not modelled: proxy settings, the 60-second timeouts and the Jenkins instance lookup are host configuration.
- `send`, `get`, `post`, `delete` and connection release are not modelled. They are real network I/O, replaced by the reply parameters described above.
- The Jackson codec is not modelled: `serializeObject` with its non-null inclusion policy and the `parse` overloads are library calls. Their outcomes are the reply parameters.
- Basic-auth headers and preemptive authentication are not modelled. The credential pair is stored but never inspected.
- Logging is not modelled.
- `getName` is not modelled; it is a plain getter of `name`.
- The constructor's `key` parameter is accepted and ignored, as in the source.
- Comment and pull-request ids are unbounded integers. Java's `Integer` and `Long` render the same for every value they can hold.
- `MasterCoverageAction.java` is not part of this model. It holds Jenkins recorder plumbing, a floating-point parse, and a store defined elsewhere.
- The reporting flow that calls these operations (find own comments, delete old reports, post a new one) is not part of this model. Neither is the server-side set of comments that flow leaves behind.

## Findings

| source | as written | input that shows it | evidently intended | confidence | as-written member | corrected member |
|---|---|---|---|---|---|---|
| src/main/java/com/github/adiesner/jenkins/bitbucketprcoveragestatus/bitbucket/ApiClient.java:130-140 | only `IOException` is caught. A failed request makes `get` return null, and `parse(null, ...)` throws `NullPointerException` (the JSON reader wraps the string in a `StringReader`). A body of JSON `null` makes `parse` return null, and `.getUuid()` throws. Either exception escapes the constructor. | the GET of `/2.0/user` times out (`UserUnanswered`) | any failed lookup leaves the identity empty and the client is still built, as the fallback to `StringUtils.EMPTY` shows | medium, not executed (rests on the JSON library's handling of a null string) | Client.LoggedInUserUuidAsWritten | Client.LoggedInUserUuid |
