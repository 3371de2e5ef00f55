# aNewSpring API client: a verified model of its core

`anewspring.php` is a PHP client for the REST API of the aNewSpring learning
platform. Almost every public method is a thin wrapper around one call of
`query($method, $path, $result_type, $data, $data_count)`. This project models
what `query` does once the transport has answered. It also models the helpers
the wrappers share:

- the request body encoder `data_string`;
- the error-body cleaner `clean_html`;
- the key mask `hide_pass`;
- the log line helpers `log_entry` and `log_error`;
- the singular/plural choice of `out_stats`;
- the existence checks that answer from preloaded sets;
- `all_groups` and `get_groups`;
- the preloading loops `init_user_ids` and `init_course_ids`;
- the user-field whitelist applied by `addUser`, `updateUser` and `addOrUpdateUser`.

Modules:

- `PhpString`: the PHP string built-ins the code relies on:
  - `explode`/`implode`, `str_replace`, `trim`, `substr`;
  - integer-to-string conversion;
  - PHP 8 numeric strings and loose `==`.
- `PhpValue`: the values `json_decode($s, true)` produces, and what the client does with them:
  - truthiness, `isset`, indexing, `get_debug_type`;
  - `array_column`;
  - the `(int)` cast;
  - loose `in_array`.
- `ResultTypes`: the `result_type` mini-language (`json:users:array:id`, `http_code`, ...).
- `Encoder`: `data_string`.
- `Normalizer`: `clean_html` and `hide_pass`.
- `QueryRules`: the rules `query` applies after the transport, as functions:
  - classification, the log summary and log lines;
  - the JSON shape check, its fallbacks, extraction, `count` and `array_column`.
- `Catalog`: `user_fields`, the whitelist filter, `all_groups` and the `out_stats` noun.
- `Caches`: what `init_user_ids` and `init_course_ids` collect.
- `ApiClient`: the class `Client`:
  - every field `query` updates;
  - the preloaded sets;
  - methods for `query`, the existence checks, `get_groups`, the preloading loops and the user calls.

Each `Client` method modifies only the fields it names, so "nothing else
changes" is part of every contract.

## Model

| member | source | states |
|---|---|---|
| ApiClient.Client.Query | anewspring.php:154-309 | Both counters rise by one: `api_calls` under the path's first segment, `http_codes` under the status. `error` holds exactly when the status is not 200, and `message` is the one the classification gives. The log pair rolls on. The error log gains the two entry lines on failure, then the mismatch line of a mis-shaped JSON result. The result is the shaped value. No other field changes. |
| ApiClient.Client.Send | anewspring.php:156-209 | The call is counted, the data encoded and sent, and the status, error flag and message are set from the transport's answer. |
| ApiClient.Client.Conclude | anewspring.php:211-306 | The raw result is decoded, the log entry built from time, verb, path, data column, status and summary, the pair rolled, and the result type-checked and shaped. |
| ApiClient.Client.CountCall | anewspring.php:156-161 | The counter of the path's endpoint name rises by one; a new name starts at 1 and other names keep their counts. |
| ApiClient.Client.CountStatus | anewspring.php:192-196 | The counter of the current status rises by one; a new status starts at 1. |
| ApiClient.Client.RecordStatus | anewspring.php:166-209 | The status is the reply's, or 500 when the environment check failed. `error` is set exactly when the status is not 200. The message is `OK` or `Error <path> <result>`. The result string is the body on 200, the cleaned body otherwise, and the dump of null when nothing was sent. |
| ApiClient.Client.DecodeResult | anewspring.php:213-219 | JSON is decoded only for a `json` call that got 200; `http_code` yields the status; every other case yields the result string. |
| ApiClient.Client.RecordEntry | anewspring.php:270-275 | `call_prev` becomes the old `call_cur` and `call_cur` the new entry. The error log gains the previous and current lines only when the status is not 200. |
| ApiClient.Client.LogError | anewspring.php:458-463 | `log_error` appends exactly one line to the error log: the trimmed, space-joined entry. |
| ApiClient.Client.ShapeResult | anewspring.php:278-306 | A mis-shaped `json` result is logged and replaced by the fallback. A well-shaped one is extracted. Other kinds pass through. |
| ApiClient.Client.ErrorLogOutsideJson | anewspring.php:270-277 | A call whose kind is not `json` adds nothing to the error log on 200. On any other status it adds exactly the previous entry's line and its own, in that order. |
| ApiClient.Client.ErrorLogFailedJson | anewspring.php:270-289 | A failed `json` call adds three lines: the previous entry's, its own, and then the type-error line of `log_error`. That line dumps the undecoded result string and carries the call's time, verb, path, data and status. |
| ApiClient.Client.UserExists | anewspring.php:510-519 | With preloaded user IDs the answer is membership and no field changes. Otherwise the answer is the yes/no of a `GET userExists/<uid>`, and the new state is the one that `query` call leaves: counters, status, flag, message, log pair and error log. |
| ApiClient.Client.GroupUserExists | anewspring.php:814-826 | With preloaded group members the answer is "the group is known and holds the user", and no field changes. Otherwise it is the server's yes/no, and the new state is the one the `GET groupUserExists/<group>/<uid>` query leaves. |
| ApiClient.Client.IsSubscribed | anewspring.php:930-942 | With preloaded subscriptions the answer is "the course is known and lists the user", and no field changes. Otherwise a user that `userExists` denies is not subscribed, and any other user gets the server's yes/no. The new state is that of the `userExists` check (when it queries), followed by the `isSubscribed` query for a known user. |
| ApiClient.Client.AskSubscribed | anewspring.php:937-939 | Without preloaded subscriptions, the answer is yes exactly when `userExists` accepts the user and the server then answers yes. The state is that after the `userExists` check, followed by the `isSubscribed` query only for a known user. |
| ApiClient.Client.AskBool | anewspring.php:515 | A `json:result:bool` `GET` of `<name>/<rest>` yields exactly the server's yes/no answer. The call is counted under `name`, and the state afterwards is the one that query leaves. |
| ApiClient.Client.GetGroups | anewspring.php:1327-1337 | The result is the groups of `all_groups()` that hold the user, in order. Nothing changes when the members are preloaded. Otherwise the state is that after one `groupUserExists` query per group, in order. |
| ApiClient.Client.MemberGroupsMeaning | anewspring.php:1327-1337 | A group is in the `get_groups` result exactly when it is one of the groups asked about and holds the user; the result is never longer than the list. |
| ApiClient.Client.InitUserIds | anewspring.php:1344-1360 | The three ID lists are the non-zero IDs of the user rows, in order: all of them, the active ones, and the inactive ones. |
| ApiClient.Client.AppendTeacherCourses | anewspring.php:1383-1387 | The course IDs gain, in order, the IDs of the template's courses that allow teachers and belong to the teacher group. |
| ApiClient.Client.InitCourseIds | anewspring.php:1380-1390 | The course IDs are those collected over the templates. A template without a string ID ends the walk with a `TypeError`, and the IDs found before it are kept. |
| ApiClient.Client.SubmitUser | anewspring.php:591-649 | The row is cut to the call's whitelisted fields and POSTed to `<function>/<uid>`. The returned code is the status. The new state is the one that `http_code` query leaves, counted under the function name. |
| ApiClient.Client.AddUser | anewspring.php:591-601 | `addUser` returns the status of POSTing the row filtered by the `addUser` field list (the intended list; see "## Findings"). The call is counted under `addUser`, and the new state is the one that query leaves. |
| ApiClient.Client.UpdateUser | anewspring.php:617-627 | `updateUser` returns the status of POSTing the row filtered by the `updateUser` field list (the intended list; see "## Findings"). The call is counted under `updateUser`, and the new state is the one that query leaves. |
| ApiClient.Client.AddOrUpdateUser | anewspring.php:639-649 | `addOrUpdateUser` returns the status of POSTing the row filtered by the `addOrUpdateUser` field list (the intended list; see "## Findings"). The call is counted under `addOrUpdateUser`, and the new state is the one that query leaves. |
| QueryRules.EndpointNameSplits | anewspring.php:156 | The endpoint name holds no `/`, starts the path, and is followed by a `/` or the end of the path. |
| QueryRules.Bump | anewspring.php:157-161 | A counter map gains the key, whose count rises by one or starts at 1; every other count is kept. |
| QueryRules.MessageClassifies | anewspring.php:198-209 | The message is `OK` exactly on 200. Otherwise it is `Error `, the path, a space and the whole result string. |
| QueryRules.LogSummaryOneLine | anewspring.php:250 | The summary never holds a line feed or a carriage return. |
| QueryRules.LogSummaryOk | anewspring.php:245-246 | On 200 the summary starts with `OK`, and is exactly `OK` when the value is falsy. |
| QueryRules.LogSummaryStripsCode | anewspring.php:247-249 | On another status, a value that starts with the three-digit status and a space loses those four characters. |
| QueryRules.LineOfFields | anewspring.php:254-260 | A log line is the six entry fields joined by single spaces, in order. |
| QueryRules.ErrorLinesAreTwo | anewspring.php:272-275 | On a status other than 200, the rolling pair contributes exactly two lines to the error log: the previous entry's, then the current one. |
| QueryRules.ErrorLinesOnSuccess | anewspring.php:272 | The rolling pair contributes nothing to the error log exactly when the call got 200. |
| QueryRules.JsonErrorFallsBack | anewspring.php:213-214 | A `json` call that did not get 200 is never decoded. It fails the type check and returns the fallback. |
| QueryRules.FallbackHasExpectedType | anewspring.php:287-295 | The fallback is `false` for `bool`, otherwise `-1` for `count`, otherwise `[]` without a key or for `array`, and `''` for any other type (such as `int`). For the types `array`, `bool` and `string` it has the type the caller asked for. |
| QueryRules.ShapeSelectsKey | anewspring.php:279-303 | A well-shaped result with a key and no column, or column `array`, is that key's value, which exists and has the requested debug type. |
| QueryRules.ShapeCounts | anewspring.php:300-301 | With column `count`, a well-shaped array yields its element count. |
| QueryRules.ShapeCountOfScalarThrows | anewspring.php:300-301 | A `count` over a key whose type is not `array` throws a `TypeError`. |
| QueryRules.ShapeProjects | anewspring.php:302-303 | Another column gives that column's values in element order. There are never more values than elements, and exactly as many precisely when every element has the column. |
| QueryRules.BoolShapeIsBool | anewspring.php:279-290 | `json:<key>:bool` always yields a boolean. |
| QueryRules.BoolReplyMeaning | anewspring.php:213-299 | A `json:result:bool` query yields true exactly when the call got 200 and the decoded body holds `true` under `result`. |
| QueryRules.ArrayShapeIsArray | anewspring.php:279-303 | `json` or `json:<key>:array` with no column, or column `array`, always yields an array. |
| QueryRules.HttpCodeShape | anewspring.php:215-216 | An `http_code` call returns the status, whatever the body. |
| ResultTypes.ParseFormat | anewspring.php:211 | Splitting a four-part descriptor on `:` recovers its four parts. |
| ResultTypes.ParseBareKind | anewspring.php:211 | A descriptor without `:` has empty key, type and column. |
| ResultTypes.ParseThreeParts | anewspring.php:211 | `kind:key:type` has an empty column. |
| PhpString.ImplodeExplode | anewspring.php:156 | Joining the pieces `explode` gives, with the separator, rebuilds the string. |
| PhpString.ExplodeImplode | anewspring.php:211 | `explode` splits a join of separator-free pieces back into exactly those pieces. |
| PhpString.NumericValueOfDec | anewspring.php:245 | The decimal text of a status is a numeric string with that value. |
| PhpString.TrimIsSlice | anewspring.php:462 | `trim` returns a contiguous piece of its input. |
| PhpString.ReplaceAllCharGone | anewspring.php:250 | Replacing a character by text without it leaves no occurrence of it. |
| PhpString.ReplaceAllCharKeeps | anewspring.php:250 | Replacing one character leaves every other character that the replacement lacks present exactly when it was. |
| PhpValue.ColumnAppend | anewspring.php:303 | `array_column` of two row lists is the concatenation of their projections, so row order is kept. |
| PhpValue.ColumnFull | anewspring.php:303 | The projection has one value per row exactly when every row has the column. |
| Encoder.DataString | anewspring.php:327-348 | The loop result is the encoding of the data with booleans rewritten. Empty data gives `''`. |
| Encoder.BoolsAsTokensMeaning | anewspring.php:331-333 | The rewrite keeps every key and position and every non-boolean value. Each boolean becomes `true` or `false`, and no boolean is left. |
| Encoder.IndexTokenRewritten | anewspring.php:340-344 | For a key without `=`, `key%5B<i>%5D=` becomes `key=` when `i` is a single digit or a number without a leading zero. The key may hold other percent-escapes. |
| Encoder.LeadingZeroIndexKept | anewspring.php:340-344 | An index with a leading zero, such as `01`, is left as it is. |
| Encoder.FlattenNoEquals | anewspring.php:340-344 | A body without `=` is not changed by the rewrite. |
| Encoder.FlattenRepeatedKey | anewspring.php:335-344 | An encoded list parameter `k[i]=v0&k[i+1]=v1&...` becomes `k=v0&k=v1&...`, the same key once per value. This holds for any key and values without `=`, as urlencoding makes them, escapes included. |
| Normalizer.CutAtBodyEnd | anewspring.php:359 | The text is cut at the first `</body>` in any case, or kept whole when there is none. |
| Normalizer.AfterLastBodyTagNone | anewspring.php:359 | No text is dropped in front exactly when no `<body ...>` tag starts anywhere. |
| Normalizer.AfterLastBodyTagIsLast | anewspring.php:359 | What is kept after the dropped `<body ...>` tag holds no further such tag. |
| Normalizer.StripTagsPlainText | anewspring.php:359 | Text without `<` passes `strip_tags` unchanged. |
| Normalizer.CollapseNewlinesIdempotent | anewspring.php:377-378 | A second pass of the line-feed collapse changes nothing. |
| Normalizer.CleanHtmlShape | anewspring.php:356-381 | `clean_html` output has no whitespace at either end, no two spaces in a row, no line that starts or ends with a space, and never three line feeds in a row. |
| Normalizer.CleanHtmlIdempotent | anewspring.php:356-381 | Cleaning the output of `clean_html` again returns it unchanged. |
| Normalizer.HidePassRemovesKey | anewspring.php:409-412 | With a non-empty key that has no `*`, the masked text never contains the key. |
| Normalizer.HidePassNoKey | anewspring.php:409-412 | Text that does not contain the key is returned unchanged. |
| Normalizer.HidePassFirstOccurrence | anewspring.php:409-412 | When no occurrence of the key starts before a given one, that occurrence becomes `***`, the text before it is kept unchanged, and masking goes on after the key. |
| Normalizer.HidePassStarKey | anewspring.php:409-412 | A key that contains `*` can survive the mask: key `a**` in `aa**` gives `a***`. |
| Catalog.UserFieldsExtend | anewspring.php:1210-1267 | Intended field lists: the base fields first. `role` is present exactly for `addUser`. `archived` is present exactly for `updateUser` and `addOrUpdateUser`. |
| Catalog.UserFieldsAsWrittenFails | anewspring.php:1253-1263 | As written, the three user calls fail in `user_fields`; every other name gets the intended list. |
| Catalog.WhitelistedMembers | anewspring.php:593-598 | An entry survives the filter exactly when it was in the row and its key is whitelisted. |
| Catalog.WhitelistedIdempotent | anewspring.php:593-598 | Filtering an already-filtered row changes nothing. |
| Catalog.FilterFields | anewspring.php:594-598 | The `foreach ... unset` loop keeps the whitelisted entries in their row order. |
| Catalog.DedupMeaning | anewspring.php:1318 | `array_unique` keeps each value exactly once and adds none. |
| Catalog.AllGroupsMeaning | anewspring.php:1316-1319 | `all_groups()` ends with the teacher group. Before it, every group of the job-title table appears exactly once, and nothing else does; so a table that holds the teacher group lists it twice. |
| Catalog.StatsNameMeaning | anewspring.php:488-500 | Zero prints nothing and one prints the singular. Every other count prints the same noun, which ends with the plural: the singular followed by the plural when the plural is the shorter (a suffix), the plural itself otherwise. |
| Caches.IdsPartition | anewspring.php:1344-1360 | The active and inactive IDs split the list of all IDs, as a multiset and in length. No ID is zero, and each belongs to some user row. |
| Caches.TeacherCoursesMembers | anewspring.php:1383-1387 | An ID is collected from a template's courses exactly when some course with that ID allows teachers and has the teacher group. |
| Caches.CourseIdsOfMembers | anewspring.php:1382-1388 | An ID is collected over the templates exactly when one of them contributes it. |
| Caches.CollectCoursesFails | anewspring.php:1382-1383 | The walk fails exactly when some template has no string ID. Without such a template it collects over every template. |

## Left out

- The cURL transport, URL, user agent, API-key header and `curl_getinfo` (anewspring.php:171-190) are network I/O. Each exchange is a `Network` function from the request to the transport outcome and the log time.
- `check_environment` (anewspring.php:316-319) always returns `''`. Its failing branch is still modelled, as the `EnvFailed` outcome.
- The `file_put_contents` append to the log file (anewspring.php:262-268) is file I/O and is not modelled.
- `mail_error` (anewspring.php:421-424) is dead code (`if (false)`).
- `date('Y-m-d H:i:s')` in `log_entry` is the clock. The time comes with the exchange.
- `json_decode`, `http_build_query` and the `var_dump`/output-buffer text used by `dbg` are library routines. They are parameters of the client (`Library`).
- `strip_tags` is modelled as removing every `<...>` span, and an unclosed `<` drops the rest. PHP's comment and quote handling is not modelled.
- Normalizer.StripTags: PHP keeps a `<` followed by whitespace (`a < b` stays as it is), where the model drops from the `<` to the next `>`. PHP also counts nested `<` depth (`<a<b>c>d` gives `d`), where the model ends the tag at the first `>` (giving `c>d`).
- Strings are sequences of characters, while PHP's `strlen` and `substr` count bytes. So for text outside ASCII, the `string(N)` length in the log summary, the four-character status prefix cut, and the `strlen` comparison in `out_stats` count characters where PHP counts bytes.
- ApiClient.Client.ErrorLogFailedJson: `log_error` reads the clock a second time through `log_entry`. The model reuses the exchange's timestamp for the type-error line.
- PhpValue.Lookup: arrays are not constrained to unique keys, and a lookup returns the first entry with the key. `json_decode` keeps the last of duplicate keys, so a body with a repeated key can read differently.
- PCRE's `i` flag is modelled as ASCII case folding.
- `"\xc2\xa0"` is the character U+00A0, since strings are sequences of characters rather than bytes.
- `number_format` and the `echo`/buffer of `out` and `out_stats` are float formatting and output. Only the choice of noun is modelled.
- `is_mobile_app` reads `$_SERVER` and is not modelled.
- `init_group_users` and `init_subscriptions` are not modelled: their loops only store wrapper results. The maps they fill are fields the existence checks read.
- The endpoint wrappers (anewspring.php:536-1187) only forward to `query`. Only `userExists`, `groupUserExists`, `isSubscribed`, `addUser`, `updateUser` and `addOrUpdateUser` are modelled.
- Floating-point values are not part of the value model. PHP's numeric-string comparison is modelled with exact rationals instead of IEEE doubles.
- Integers are unbounded, so `(int)` overflow and 64-bit wrap-around are not modelled.
- A string result indexed by a numeric key (a string offset) reads as null.
- ApiClient.Client.InitUserIds: takes the rows `getUsers()` returns as an input, rather than performing that call.
- ApiClient.Client.InitCourseIds: takes the rows `getTemplates()` returns and a function standing for `getCourses()` as inputs, rather than performing those calls.
- ApiClient.Client.SubmitUser: requires an endpoint name without `/`, which is true of its three callers.
- Normalizer.HidePassRemovesKey: requires a key without `*`. `HidePassStarKey` shows that the promise fails for other keys.
- QueryRules.LineOfFields: applies when the time does not start with whitespace and the summary does not end with it. Otherwise `trim` also cuts into those fields.

## Findings

| source | as written | input that shows it | evidently intended | confidence | as-written member | corrected member |
|---|---|---|---|---|---|---|
| anewspring.php:1253-1263 | `user_fields` merges the undefined `$field` instead of `$fields` for `addUser`, `updateUser` and `addOrUpdateUser`, so `array_merge(null, ...)` throws a `TypeError` in PHP 8 and all three calls fail before sending | `addUser(1, ['login' => 'x'])` | the base fields followed by the call's extra fields | high, not executed | Catalog.UserFieldsAsWrittenFails | Catalog.UserFieldsExtend |
