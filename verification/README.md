# DevSearch core, modelled in Dafny

DevSearch is a FastAPI application where developers publish profiles and
projects, tag projects, review each other's projects and exchange messages.
Most of it is route handlers wrapped around an ORM. This project models the
parts of it that carry rules, and proves what those rules promise:

- **Pagination** (`pagination.dfy`): the `Paginator` of `render/utils.py`.
  It covers the page count, the next and previous page, and the compressed
  page list `pages_range`, which shows page numbers with `'...'` gaps.
- **Registration validators** (`validators.dfy`): `username_validator`,
  `email_validator`, `password_validator` and `user_validation`.
  - Existing usernames and e-mails are a `Registry` of two sets.
  - The password library's character classes and the e-mail syntax check
    are parameters.
- **Upload guards** (`uploads.dfy`): the two `save_and_compress_image`
  procedures. Each runs its guards in order (extension, size, decoding),
  builds the generated file name and path, and writes to a `FileSystem`
  object. Also modelled: the `allowed_file` test and the test in
  `remove_old_image` that decides whether a path may be deleted.
- **Message mailbox** (`mailbox.dfy`): a `MessageStore` holding a map from
  message ids to messages.
  - Opening a message marks it read for its recipient.
  - Deleting is two-sided: the row goes once neither party refers to it.
  - The inbox listing is ordered unread first, then by creation time.
  - Also modelled: the unread counter of `render/utils.py`.
  - The `created` default of a message is computed once, when the models
    load (models.py:69-70), so every message of one run gets the same
    value. The store keeps that value as `loadTime`. The model leaves open
    the order among messages with the same read flag and timestamp.
- **Tag store** (`tags.dfy`): `post_tag`, `delete_tag`, `get_project_tags`
  and `assign_tag`, over tags and project-to-tag links.
- **Review store** (`reviews.dfy`): `create_review`, `get_my_review`,
  `update_review`, `delete_review` and `get_Project_reviews`. It also
  models the two SQLite triggers that keep `vote_total` equal to the
  number of reviews.

Every handler is modelled twice:

- a function from the state before to the result and the state after;
- an imperative method on the store class that mutates fields and is proved
  equal to that function.

HTTP errors are values, `Err(Failure(status, detail))`, with the source's
status and detail text. An exception the handler does not catch becomes a
500 with the detail `"Internal Server Error"`. Generated values (uuid4 keys,
the clock, the current date) are parameters.

## Model

| member | source | states |
|---|---|---|
| Pagination.CeilDiv | render/utils.py:32 | the page count is the least q with q*size >= total |
| Pagination.CeilDivUnique | render/utils.py:32 | any q meeting both ceiling bounds is the page count, so the count is the ceiling and nothing else |
| Pagination.NewPaginator | render/utils.py:21-34 | the fields are kept; pages is ceil(total/size); next_page exists iff page < pages and is page+1; previous_page exists iff page > 1 and is page-1 |
| Pagination.Range | render/utils.py:54 | range(a, b) holds b-a consecutive page numbers starting at a, and none when b <= a |
| Pagination.CoversRangePrefix | render/utils.py:60-76 | a run of consecutive pages in front of a well-formed list gives a well-formed list from its first page |
| Pagination.CoversUpper | render/utils.py:57-76 | a well-formed list over lo..hi never starts past hi+1 |
| Pagination.CoversEllipsisPrefix | render/utils.py:63-64 | an ellipsis in front of a list whose first page is past the gap start stays well formed (it hides at least one page) |
| Pagination.CoversBounds | render/utils.py:57-76 | every number in a well-formed list lies in lo..hi |
| Pagination.CoversIncreasing | render/utils.py:57-76 | the numbers of a well-formed list strictly increase |
| Pagination.CoversGaps | render/utils.py:57-76 | adjacent numbers differ by exactly 1, and every '...' sits between two numbers that are at least 2 apart |
| Pagination.PageInRange | render/utils.py:54 | page k is in range(a, b) iff a <= k < b |
| Pagination.EndingCovers | render/utils.py:69-73 | the ending part is a well-formed list over end+1..pages |
| Pagination.MiddleEndingCovers | render/utils.py:57-73 | middle plus ending is well formed from the window start, begins with it, and contains the current page |
| Pagination.LongCovers | render/utils.py:57-76 | for a long page count the three parts together are well formed over 1..pages and contain the current page |
| Pagination.PagesRangeCovers | render/utils.py:36-76 | for 1 <= current <= pages the displayed list is increasing, within 1..pages, contains the current page, has no hidden gap between adjacent numbers, and each '...' hides at least one page |
| Pagination.PagesRangeShown | render/utils.py:57-76 | for a long page count, page k is displayed iff it is one of the first on_ends pages, lies in the window, or is one of the last on_ends pages (the ends are always shown in full) |
| Pagination.CountEllipsesAppend | render/utils.py:76 | the '...' count of a concatenation is the sum of the counts |
| Pagination.CountEllipsesRange | render/utils.py:54 | a range holds no '...' |
| Pagination.BeginningEllipses | render/utils.py:63-66 | the beginning holds one '...' (as its last item, after the on_ends first pages) iff start > on_ends+1, and none otherwise |
| Pagination.EndingEllipses | render/utils.py:69-73 | the ending holds one '...' (as its first item, before the on_ends last pages) iff end < pages-on_ends, and none otherwise |
| Pagination.PagesRangeEllipses | render/utils.py:50-76 | a short page count gives no '...'; otherwise there is a leading '...' iff start > on_ends+1 and a trailing one iff end < pages-on_ends, at the positions the source puts them |
| Pagination.PagesRangeExample | render/utils.py:45-48 | 20 pages, current 10, 2 on each side and 2 on the ends give [1, 2, '...', 8, 9, 10, 11, 12, '...', 19, 20] |
| Pagination.PagesRangeShortExample | render/utils.py:50-54 | 5 pages are listed in full, with no '...' |
| Validators.MessageInjective | users/validators.py:37-50 | the seven password messages are pairwise different, so a message identifies its rule |
| Validators.RuleAt | users/validators.py:37-50 | the k-th check in source order is the rule of index k |
| Validators.Messages | users/validators.py:37-50 | the message list has one entry per broken rule, in the same order |
| Validators.MessagesSnoc | users/validators.py:37-50 | appending a broken rule appends exactly its message |
| Validators.BrokenBeforeMembers | users/validators.py:37-50 | after the first k checks, a rule has been reported iff it is among them and the password breaks it; at most k are reported |
| Validators.BrokenBeforeOrdered | users/validators.py:37-50 | reported rules appear in the fixed source order: min 8, max 50, upper, lower, digit, no spaces, symbol |
| Validators.PasswordErrorsSpec | users/validators.py:33-52 | at most 7 messages; a rule's message is present iff the password breaks it; the list is empty iff all seven rules hold; messages follow the source order |
| Validators.LengthMessagesExclusive | users/validators.py:37-40 | the "at least 8" and "must not exceed 50" messages never appear together |
| Validators.MissingSymbolExample | test/render/test_users.py:12-24 | 'Password123' gets exactly the missing-symbol message |
| Validators.PasswordValidator | users/validators.py:33-52 | the method's seven appends build exactly the specified error list |
| Validators.UsernameValidator | users/validators.py:12-17 | the result is ['Username used before!'] iff the username is in use, otherwise [] |
| Validators.EmailErrors | users/validators.py:20-30 | both checks always run: 'Email used before!' comes first when the address is in use, and the syntax message comes last when the syntax check fails |
| Validators.EmailValidator | users/validators.py:20-30 | the method builds exactly that list |
| Validators.UserValidation | users/validators.py:55-67 | all three validators run; a field is a key iff its list is non-empty, and then maps to that list |
| Validators.AllFieldsReported | users/validators.py:55-67 | with a taken username, bad e-mail syntax and a weak password, all three fields are reported (no short-circuit) |
| Uploads.LowerChar | users/utils.py:32 | ASCII capitals map to their lower-case letter, and every other character is kept |
| Uploads.Lower | users/utils.py:11 | lower-casing works character by character and keeps the length |
| Uploads.LastDot | users/utils.py:11 | None iff there is no '.', and otherwise the position of the last '.' |
| Uploads.Extension | users/utils.py:11 | rsplit('.', 1)[1] holds no '.' |
| Uploads.AllowedFileSpec | users/utils.py:10-11 | a file is allowed iff some '.' has no '.' after it and the lower-cased text after it is png, jpg, jpeg or gif (config.py:12) |
| Uploads.LastDotAt | users/utils.py:11 | a '.' with no '.' after it is the one rsplit splits at |
| Uploads.AllowedFileExamples | users/utils.py:10-11 | 'me.PNG' is allowed; 'png' (no dot) and 'a.png.exe' are not |
| Uploads.Take | users/utils.py:33 | a Python prefix slice keeps min(n, len) characters |
| Uploads.UniqueFilename | users/utils.py:32-33 | the name is the first 10 characters of the uuid string, a '.', then the lower-cased original extension |
| Uploads.Join | users/utils.py:28 | os.path.join: an absolute second part wins, and otherwise exactly one '/' separates the parts |
| Uploads.SavedPathShape | users/utils.py:28-36 | the returned path is SAVE_DIR/<date>/<generated name> |
| Uploads.SavedImageRemovable | render/utils.py:172-174 | a freshly saved image path is one remove_old_image would delete |
| Uploads.PlaceholdersKept | render/utils.py:174 | the empty path and both default images are never deleted, while other images are |
| Uploads.FileSystem.MakeDirs | users/utils.py:29 | the directory exists afterwards and no file changes |
| Uploads.FileSystem.WriteFile | users/utils.py:47 | only that path's contents change |
| Uploads.SaveAndCompressImage | users/utils.py:14-49 | a bad extension gives 400 "Invalid image extension" before anything else; then more than 10 MB gives 400 (exactly 10 MB passes); the date directory is created; undecodable content gives 400 "Invalid image file", leaving the new directory but writing no file; content that opens but cannot be converted or re-encoded gives an uncaught 500, again leaving the directory and writing no file; otherwise the compressed image is written at SAVE_DIR/date/name and that path is returned |
| Uploads.RemoveAll | apis/users/utils.py:58 | str.replace with '' never makes the text longer |
| Uploads.RemoveAllAbsent | apis/users/utils.py:58 | removing a pattern that does not occur changes nothing |
| Uploads.RemoveAllPrefix | apis/users/utils.py:58 | a leading occurrence is dropped and the rest is processed the same way |
| Uploads.SingleDotAbsent | apis/users/utils.py:41 | a dot-free name, '.', and a dot-free extension never contain './static/' |
| Uploads.AllowedExtensionShape | base/config.py:17 | every allowed extension is non-empty, starts with no '/', and has no '.' |
| Uploads.ApiReturnedPathShape | apis/users/utils.py:36-58 | for an allowed file the returned path is 'images/<date>/<generated name>': both './static/' occurrences are gone |
| Uploads.ApiSaveAndCompressImage | apis/users/utils.py:23-58 | the same guard order, with the size taken from the upload's declared size; a missing size fails the comparison with a 500; a failed convert or save after a successful open is an uncaught 500 that writes no file; on success the file is written under './static/./static/images/<date>/' and the path with './static/' removed is returned |
| Mailbox.Opened | users/messages.py:35-37 | opening sets is_read iff the caller is the recipient, and changes nothing else |
| Mailbox.Detached | users/messages.py:89-93 | each party equal to the caller is nulled, and nothing else changes |
| Mailbox.Lookup | users/messages.py:25-33 | a message is found iff the id exists and the caller is its sender or recipient |
| Mailbox.AfterDelete | users/messages.py:78-99 | delete fails iff the lookup fails; it never adds a message and leaves every other message unchanged; a kept message is the old one opened by the caller (read if the caller is its recipient) with exactly the caller's own sender and recipient references nulled, and no other field changed |
| Mailbox.DeleteDropsCaller | users/messages.py:89-97 | after delete the caller is no longer a party of that message (or the message is gone) |
| Mailbox.DeleteRemovesIffOrphaned | users/messages.py:95-97 | the row is removed iff each side is absent or the caller |
| Mailbox.TwoSidedDelete | users/messages.py:78-99 | a sender's delete keeps the message for the recipient, and the recipient's delete then removes it |
| Mailbox.OpenReadFlag | users/messages.py:35-38 | after open, is_read holds iff it held before or the caller is the recipient; no message is added or removed |
| Mailbox.OpenIdempotent | users/messages.py:14-39 | opening twice is the same as opening once |
| Mailbox.InboxOrderTransitive | users/messages.py:61-62 | the order (unread first, then by created) is transitive |
| Mailbox.InsertPos | users/messages.py:61-62 | the insertion point has only messages not after the new one before it, and a message after it at that point |
| Mailbox.InsertDistinct | users/messages.py:61-63 | inserting a new id keeps the list free of repeats |
| Mailbox.InsertSorted | users/messages.py:61-62 | inserting at that point keeps the list in inbox order |
| Mailbox.MessageStore.constructor | models.py:69-70 | the store starts empty, and the created default is fixed once when the models load |
| Mailbox.MessageStore.OpenMessage | users/messages.py:14-39 | 404 'Could not find the message!' with no change unless found; otherwise returns the opened message and marks it read for the recipient only |
| Mailbox.MessageStore.SendMessageFromUser | users/messages.py:42-48 | 404 without a profile; 500 when the key is taken; otherwise stores one unread message from the caller with the profile's name and e-mail |
| Mailbox.MessageStore.GetReceivedMessages | users/messages.py:59-66 | returns exactly the caller's received messages, each once, unread first and then by created |
| Mailbox.MessageStore.DeleteMessage | users/messages.py:78-99 | 404 with no change unless found; otherwise the store becomes the two-sided delete result |
| Mailbox.UnreadCount | render/utils.py:148-149 | the count is at most the number of messages; it is 0 iff all are read, and equal to their number iff none is read |
| Mailbox.UnreadCountAppend | render/utils.py:148-149 | counts add up over concatenation |
| Mailbox.UnreadCountAfterOpen | render/utils.py:148-149 | the recipient opening an unread message lowers the count by one, and opening a read one changes nothing |
| Tags.FindTag | projects/tags.py:30 | the lookup finds a tag with that name iff one exists |
| Tags.LinksTo | projects/tags.py:73-75 | the number of links to a tag is 0 iff no link names it |
| Tags.Copies | projects/tags.py:41-43 | a link's copy count is 0 iff it is not stored |
| Tags.CopiesAppend | projects/tags.py:41-43 | copy counts add up over concatenation |
| Tags.Without | projects/tags.py:67-70 | deleting a link's rows keeps exactly the other links |
| Tags.WithoutCopies | projects/tags.py:67-70 | every other link keeps its number of copies |
| Tags.ProjectTags | projects/tags.py:13-18 | a tag is listed for a project iff a link joins them |
| Tags.OnlyOwnerEdits | projects/tags.py:24-27 | a caller who is not the owner gets 401 from post_tag (as written and as intended) and an error from delete_tag, and nothing changes |
| Tags.DeleteTagNotFound | projects/tags.py:55-60 | with no link, or an ownerless project, delete_tag answers 404 "Tag not found!" and changes nothing |
| Tags.PostTagTwice | projects/tags.py:38-43 | posting an existing name twice returns that tag both times, creates no tag, and stores the link twice |
| Tags.PostTagNewNameFails | projects/tags.py:30-31 | as written, post_tag by the owner fails with 500 for every name not in use, and changes nothing |
| Tags.PostTagFixedTags | projects/tags.py:33-37 | as intended, the owner's post leaves the project linked to a tag of that name |
| Tags.PostTagValid | projects/tags.py:21-49 | post_tag keeps tag names unique and every link pointing at a stored project and tag |
| Tags.AssignTagValid | render/utils.py:152-169 | assign_tag keeps tag names unique and every link pointing at a stored project and tag |
| Tags.AssignTagCreates | render/utils.py:154-157 | a name no tag has creates exactly one new tag under the fresh key, leaves every other tag as it was, links it to the project, and afterwards the name finds that tag |
| Tags.AssignTagTwice | render/utils.py:152-166 | assigning the same name twice returns the same tag both times, creates no tag on the second call, and stores the link twice: assign_tag is not idempotent |
| Tags.DeleteTagEffect | projects/tags.py:66-79 | a successful delete removes every copy of the link, keeps every other link as often as before, drops the tag iff no link to it is left, leaves every other tag row and every project unchanged, and keeps the store valid |
| Tags.DeleteTagManyOthersFails | projects/tags.py:73-75 | as written, with two or more other links to the tag the delete fails with 500 and the link stays |
| Tags.DeleteTagThreeProjects | projects/tags.py:73-75 | a tag on three projects cannot be removed from one of them as written, but can be as intended |
| Tags.DeleteTagFixedEffect | projects/tags.py:52-81 | as intended, the owner's delete succeeds, removes every copy of that one link and keeps every other link as often as before (so other projects' tags are unchanged), drops the tag iff nothing links to it, leaves every other tag row and every project unchanged, and keeps the store valid |
| Tags.TagStore.FindByName | projects/tags.py:30 | None iff no tag has the name; otherwise a stored tag with that name, and in a valid store the only one |
| Tags.TagStore.GetProjectTags | projects/tags.py:13-18 | a tag is returned iff a link row joins it to the project |
| Tags.TagStore.PostTag | projects/tags.py:21-49 | the method's steps give the specified result and tables (404, 401, crash on a new name, or a new link), and the store stays valid |
| Tags.TagStore.PostTagFixed | projects/tags.py:21-49 | the intended post_tag: the owner checks, then assign_tag; the store stays valid |
| Tags.TagStore.AssignTag | render/utils.py:152-169 | links an existing tag, or creates the tag and links it; the store stays valid |
| Tags.TagStore.DeleteTag | projects/tags.py:52-81 | the method's steps give the specified result and tables, and the store stays valid |
| Tags.TagStore.DeleteTagFixed | projects/tags.py:52-81 | the intended delete_tag; the store stays valid |
| Reviews.CountFor | base/database.py:18-38 | a project's review count is 0 iff no review names it |
| Reviews.CountForAppend | base/database.py:18-27 | each inserted row adds one to its own project's count only |
| Reviews.CountForSplit | base/database.py:29-38 | the count splits around any row |
| Reviews.CountForRemove | base/database.py:29-38 | each deleted row subtracts one from its own project's count only |
| Reviews.CountForReplace | projects/reviews.py:98-101 | overwriting a review's fields in place changes no count |
| Reviews.Of | projects/reviews.py:27-29 | the project's reviews number exactly its count |
| Reviews.OfMembers | projects/reviews.py:27-29 | they are exactly the stored reviews of that project |
| Reviews.Bump | base/database.py:18-38 | a trigger changes vote_total of the review's own project by one step, and of no other; a missing project changes nothing |
| Reviews.RemoveKeyed | models.py:136-137 | deleting a row keeps the primary key and the (project, owner) constraint |
| Reviews.FindMine | projects/reviews.py:45-47 | the review is found iff one has that id and the caller as owner |
| Reviews.UpdateVotes | projects/utils.py:17-25 | update_votes succeeds iff the project exists and its vote_total is non-zero, the divisor of the ratio at models.py:109-110 |
| Reviews.PageStartOffset | projects/reviews.py:26 | page p starts at offset (p-1)*size |
| Reviews.Window | projects/reviews.py:27-29 | offset and limit give at most size rows, taken in order from the offset, and some row iff the offset is before the end |
| Reviews.ProjectReviews | projects/reviews.py:17-30 | a page holds at most size reviews of the project, the ones from offset (page-1)*size on |
| Reviews.VoteTotalIsCount | base/database.py:18-38 | in a valid store vote_total is the project's number of reviews |
| Reviews.CreateRejectsSecond | projects/reviews.py:67-73 | a second review by the same user is refused with 400 and nothing changes |
| Reviews.CreatedValid | projects/reviews.py:54-84 | create keeps one review per pair and vote_total equal to the count; the new row raises its project's count by one; for a stored project it succeeds |
| Reviews.MyReviewSpec | projects/reviews.py:33-51 | 404 'Could not find the review!' iff the caller owns no review with that id; otherwise that review |
| Reviews.UpdatedEffect | projects/reviews.py:87-102 | only body and value of that one review change; no counter changes; the store stays valid; it succeeds for a stored project |
| Reviews.DeletedEffect | projects/reviews.py:105-118 | exactly the caller's review is removed, its project's count drops by one, and the trigger lowers that vote_total |
| Reviews.RemoveAtMembers | projects/reviews.py:116 | with unique ids, deleting a row removes exactly the rows with its id |
| Reviews.DeletedValid | projects/reviews.py:105-118 | delete keeps the store valid |
| Reviews.DeleteLastReviewFails | projects/reviews.py:116-118 | deleting a project's last review commits the delete and then answers 500, because the ratio divides by zero |
| Reviews.ProjectReviewsPage | projects/reviews.py:17-30 | a page is OFFSET (page-1)*size LIMIT size over the project's reviews: in order from that offset, at most size, short only when it reaches the last review, and empty iff the page is past the Paginator's page count |
| Reviews.PageNonEmptyIff | projects/reviews.py:26-29 | a page is non-empty iff its number is at most ceil(count/size), the Paginator's page count |
| Reviews.WindowAppend | projects/reviews.py:27-28 | rows before a page, followed by the page, are the rows before its end |
| Reviews.FirstPagesPrefix | projects/reviews.py:17-30 | pages 1..k read in turn list the project's reviews in order, none twice and none skipped |
| Reviews.ReviewStore.InsertRow | base/database.py:18-27 | inserting a row appends it and fires the +1 trigger |
| Reviews.ReviewStore.DeleteRow | base/database.py:29-38 | deleting a row removes it and fires the -1 trigger |
| Reviews.ReviewStore.GetMyReview | projects/reviews.py:33-51 | 404 "Could not find the review!" iff the caller owns no review with that id; otherwise a stored review with that id owned by the caller |
| Reviews.ReviewStore.CreateReview | projects/reviews.py:54-84 | the method's steps give the specified result and state, and the store stays valid, so vote_total stays equal to the review count |
| Reviews.ReviewStore.UpdateReview | projects/reviews.py:87-102 | setting body and then value gives the specified result and state, and the store stays valid |
| Reviews.ReviewStore.DeleteReview | projects/reviews.py:105-118 | the method's steps give the specified result and state, and the store stays valid |
| Reviews.ReviewStore.GetProjectReviews | projects/reviews.py:17-30 | OFFSET (page-1)*size LIMIT size: at most size reviews, the project's reviews from position (page-1)*size on, in order; fewer than size only on the page that reaches the last review; empty iff the page is past the Paginator's page count |

## Left out

- Character classes, e-mail syntax: the password library's notion of
  upper-case, lower-case, digit, space and symbol, and the e-mail
  validator, are foreign code. They are parameters; the e-mail check
  returns its message or none.
- Uploads.LowerChar: lower-cases ASCII letters only. Python's `str.lower`
  also folds other scripts, which cannot match an allowed extension.
- Image decoding and JPEG re-encoding (PIL): parameters `decodes` and
  `compress`; `compress` gives None when converting or saving raises.
  Also parameters: `uuid4`, the clock and the current date.
- Uploads.SaveAndCompressImage, Uploads.ApiSaveAndCompressImage: a save that
  raises after it has begun writing may leave a partial file behind; the
  model writes no file when `compress` fails.
- Tags.TagStore.AssignTag: requires a stored project, since assign_tag is
  handed a loaded `Project` object.
- Uploads.FileSystem.MakeDirs: records the directory itself, not its
  parents.
- The remove step of `remove_old_image`: only the path test is modelled.
- The floating-point `vote_ratio` and the up-vote count update_votes
  reads: only their failure modes are modelled, namely a missing project
  and a zero `vote_total`.
- Reviews.FirstPagesPrefix: the offset query has no ORDER BY, so the
  storage order stands in for the database's row order.
- Tags.TagStore.FindByName: assumes tag names are unique (`Tags.Valid`).
  Only these handlers create tags and they keep names unique, but the
  schema does not enforce it. With duplicates, `.first()` picks any of them.
- UUID parsing failures on malformed ids (a 500 in the source): ids are
  natural numbers here.
- The 422 answers FastAPI gives for `page < 1` or `size < 1` on
  `get_Project_reviews`: these are the `requires` of
  Reviews.ProjectReviews.
- The ORM session itself: flush, refresh, rollback on exceptions. A handler
  that fails after a commit keeps the committed change; one that fails
  before keeps nothing. `commit_db`'s 500 is modelled where a fresh key can
  collide.
- HTTP routing, templates, JWT issuing and decoding, bcrypt hashing, SMTP.
- The duplicated copies in the render handlers: `assign_tag` and
  `_unread_count` are modelled once, from `render/utils.py`.

## Findings

| source | as written | input that shows it | evidently intended | confidence | as-written member | corrected member |
|---|---|---|---|---|---|---|
| projects/tags.py:30-31 | `print(tag_exist.__dict__)` runs before the `if not tag_exist` test, so a new name raises on `None.__dict__` | the owner posts a name no tag has yet | create the tag and link it, as `assign_tag` does | high; not executed | Tags.PostTagNewNameFails | Tags.PostTagFixedTags |
| projects/tags.py:73-75 | `scalar_one_or_none()` raises when two or more links to the tag remain after the delete, and the uncommitted delete is rolled back | a tag on projects 1, 2 and 3, all owned by user 7; user 7 deletes it from project 1 | keep the tag while any link remains, and unlink it from this project | high; not executed | Tags.DeleteTagThreeProjects | Tags.DeleteTagFixedEffect |
