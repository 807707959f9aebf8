# SolarBright site logic in Dafny

This project models the parts of the SolarBright marketing site (a Next.js
application) that make decisions, and proves properties of them:

- **Blog loader** (`src/utils/blog.ts`): listing the markdown posts of a
  directory, loading one post by slug (`.mdx` before `.md`, front-matter defaults,
  the `## Tags` section), newest-first ordering and the reading-time estimate.
- **Cloudflare image loader** (`src/utils/cloudflare-image-loader.ts`): external
  URLs pass through; local ones become `/cdn-cgi/image/<options>/<path>`, with the
  options serialised as `application/x-www-form-urlencoded` (section 5.2 of the
  WHATWG URL Standard, UTF-8 per section 3 of RFC 3629).
- **Contact form** (`src/components/ContactForm/index.tsx`): the validator and
  the form state (`formData`, `errors`, `isSubmitting`, `isSuccess`).
- **Testimonial carousel** (`src/components/Testimonials/index.tsx`): paging
  with wrap-around and the page dots.
- **Floating chat** (`src/components/FloatingChat.tsx`): the append-only
  transcript, sending, the delayed canned reply and the open/closed window.
- **FAQ accordion** (`src/components/Solar/FAQ.tsx`): one optional open item.
- **Blog sidebar** (`src/components/Blog/BlogSidebar.tsx`): the five most recent
  other posts.
- **Price proxy route** (`src/app/api/crypto-price/route.ts`): query defaults,
  the 50-id limit, the mapping from the upstream outcome to the response, and the
  CORS pre-flight answer. Caching headers follow section 5.2.2.10 of RFC 9111
  (`s-maxage`) and section 3 of RFC 5861 (`stale-while-revalidate`).

Files: `wrappers.dfy` (Option), `strings.dfy` (the JavaScript string operations
used: the white-space set of `trim` and `\s`, `trim`, `split`, `split(/\s+/)`,
`join`, number to decimal text), and one module per source file: `blog.dfy`,
`image_loader.dfy`, `contact_form.dfy`, `testimonials.dfy`, `floating_chat.dfy`,
`faq.dfy`, `blog_sidebar.dfy`, `crypto_price.dfy`.

State that the components change in place is modelled as classes
(`ContactForm.Form`, `Testimonials.Carousel`, `FloatingChat.Chat`,
`Faq.Accordion`) whose methods state the whole new state. The file system, the
front-matter parser, the markdown renderer, the date parser, the upstream fetch
and the random pick of a reply are parameters.

## Model

| member | source | states |
|---|---|---|
| Blog.SlugOf | src/utils/blog.ts:34 | the slug followed by the removed `.mdx`/`.md` extension gives back the file name |
| Blog.MarkdownSlugs | src/utils/blog.ts:31-35 | there are never more slugs than names |
| Blog.MarkdownSlugsAppend | src/utils/blog.ts:31-35 | the slugs of two listings one after the other are the slugs of the first followed by those of the second |
| Blog.MarkdownSlugsPrefix | src/utils/blog.ts:31-35 | reading one more name adds that name's slug at the end when it ends in `.mdx` or `.md`, and adds nothing otherwise |
| Blog.NoMarkdownNoSlugs | src/utils/blog.ts:31-32 | a listing with no `.mdx` or `.md` name yields no slug |
| Blog.MarkdownSlugsOfNames | src/utils/blog.ts:31-35 | each markdown name, in listing order, yields the slug at the position given by the markdown names before it, and that slug is the name without its extension |
| Blog.MakePost | src/utils/blog.ts:62-72 | a post carries the given slug, rendered body and tags, and its title, cover image, author and author image are never empty |
| Blog.MakePostFields | src/utils/blog.ts:62-72 | a post carries the requested slug, the rendered body and the tags; each front-matter field is its value when set and non-empty, and otherwise its default (`Untitled`, empty excerpt, the load time, `/images/blog/default.jpg`, `SolarBright Team`, `/images/default-avatar.png`) |
| Blog.SkipSpaces | src/utils/blog.ts:58 | `\s*` stops at the first non-space character after a run of white space |
| Blog.LastNewline | src/utils/blog.ts:58 | finds the last newline in a range, or reports there is none |
| Blog.HeadingAt | src/utils/blog.ts:58 | a match of `##\s*Tags\s*\n` ends just after a newline |
| Blog.HeadingAtMeans | src/utils/blog.ts:58 | the heading matches at i with its capture at c exactly when i holds `##`, `Tags` in any ASCII letter case follows the white space after it, the text from there to c is white space ending in a newline, and the white space continuing from c holds no further newline |
| Blog.HeadingExample | src/utils/blog.ts:58 | `##tAgS`, a space and two newlines match, with the capture after the second newline |
| Blog.FindHeading | src/utils/blog.ts:58 | a match reported is a real match of the heading at that position, with its capture start |
| Blog.FindHeadingLeftmost | src/utils/blog.ts:58 | the match reported is the leftmost one, and when none is reported no position matches |
| Blog.TagsSection | src/utils/blog.ts:58 | there is no section exactly when the heading matches at no position of the body |
| Blog.SectionEnd | src/utils/blog.ts:58 | the lazy section ends at the first position where `\n##`, `\n---` or trailing white space follows, and at no earlier one |
| Blog.StripBulletRemoves | src/utils/blog.ts:60 | a line starting with `-` loses that one dash and the white space run after it and nothing more; any other line, `* tag` among them, is kept whole |
| Blog.CleanTags | src/utils/blog.ts:59-61 | cleaning never yields more tags than there are lines |
| Blog.CleanTagsAreTags | src/utils/blog.ts:59-61 | every cleaned line is a non-empty tag with no white space at either end |
| Blog.ExtractTags | src/utils/blog.ts:58-61 | every tag is a non-empty trimmed string; no `## Tags` section means no tags |
| Blog.Bullets | src/utils/blog.ts:60 | one `- ` bullet line per tag, in order |
| Blog.NewlinesStartBullets | src/utils/blog.ts:58 | in bullet lines joined by newlines every newline opens another bullet, so no `\n##` or `\n---` stops the section early |
| Blog.CleanBullets | src/utils/blog.ts:60 | stripping the bullet and trimming each line of a bullet list gives the tags back |
| Blog.TagsBlockHeading | src/utils/blog.ts:58 | the heading of a tags block is found at its start |
| Blog.SectionRunsToEnd | src/utils/blog.ts:58 | a body whose newlines all open bullets and which ends in a non-space character is one section up to its end |
| Blog.SectionOfBullets | src/utils/blog.ts:58 | the captured section under `## Tags` is the whole bullet list |
| Blog.ExtractTagsBlock | src/utils/blog.ts:58-61 | round trip: the tags written as a `## Tags` bullet list are extracted back unchanged |
| Blog.ExtractTagsExample | src/utils/blog.ts:58-61 | `## Tags` with bullets `Bitcoin` and `Ethereum` gives exactly those two tags |
| Blog.ResolvePostPath | src/utils/blog.ts:49-53 | the path chosen exists and is `<slug>.mdx` or `<slug>.md`, the latter only when the former does not exist; no path exactly when neither exists |
| Blog.ReadPost | src/utils/blog.ts:54-76 | a post read comes from an existing file, carries the requested slug, and its tags are non-empty trimmed strings |
| Blog.LoadPost | src/utils/blog.ts:47-77 | a post found carries the requested slug and comes from `<slug>.mdx` or `<slug>.md` |
| Blog.GetPostBySlug | src/utils/blog.ts:47-77 | the post loaded is the one the lookup function defines, and it carries the requested slug |
| Blog.LoadPostContents | src/utils/blog.ts:54-72 | a found post comes from an existing file, carries the requested slug, the rendered body of that file and the tags of its markdown |
| Blog.LoadPostMissing | src/utils/blog.ts:49-53 | neither `<slug>.mdx` nor `<slug>.md` exists: not found |
| Blog.LoadPostPrefersMdx | src/utils/blog.ts:49-54 | when `<slug>.mdx` exists it is the file read whatever `<slug>.md` holds; a directory of that name makes the read throw and the post not found |
| Blog.Successes | src/utils/blog.ts:39 | dropping the failed loads never lengthens the list |
| Blog.SuccessesCount | src/utils/blog.ts:39 | each post occurs among the kept loads exactly as often as it was loaded |
| Blog.LoadResults | src/utils/blog.ts:30-37 | one load result per slug |
| Blog.NewerThanAll | src/utils/blog.ts:40 | a post newer than every post of a sorted list is newer than every post of the list with one more older post |
| Blog.PrependNewest | src/utils/blog.ts:40 | putting a post no older than any other in front keeps the list newest first |
| Blog.InsertByDate | src/utils/blog.ts:40 | inserting into a newest-first list keeps it newest first and adds exactly that post |
| Blog.SortNewestFirst | src/utils/blog.ts:40 | the sorted listing is a permutation of the posts, newest first |
| Blog.AllPosts | src/utils/blog.ts:26-45 | the listing is newest first, and empty when the posts path is not a directory |
| Blog.GetAllPosts | src/utils/blog.ts:26-45 | the listing is the one the listing function defines, and it is newest first |
| Blog.AllPostsWithoutDirectory | src/utils/blog.ts:28-44 | no posts directory, or a posts path that is a file (whose listing throws into the catch), gives an empty listing |
| Blog.AllPostsContents | src/utils/blog.ts:28-40 | the listing is newest first, no longer than the markdown names, and holds each post exactly as often as a markdown name loads to it |
| Blog.DuplicateSlugReadsMdxTwice | src/utils/blog.ts:31-35 | with both `<slug>.md` and `<slug>.mdx` in the directory, the slug is listed twice and both loads read the `.mdx` file |
| Blog.ReadingTime | src/utils/blog.ts:87-90 | at least one minute |
| Blog.ReadingTimeBounds | src/utils/blog.ts:87-90 | the reading time is the least number of 200-word minutes covering the words, at least one, and exactly one for blank content |
| Blog.ReadingTimeOfWords | src/utils/blog.ts:87-90 | text of n words separated by single spaces takes `ceil(n / 200)` minutes |
| Strings.Trim | src/utils/blog.ts:60 | the trimmed text is no longer and neither starts nor ends with white space |
| Strings.Split | src/utils/blog.ts:60 | a split gives at least one piece |
| Strings.SplitOnSpaces | src/utils/blog.ts:88 | `split(/\s+/)` gives at least one piece |
| Strings.TrimEmptyIffBlank | src/components/ContactForm/index.tsx:24 | `trim()` is empty exactly when every character is white space |
| Strings.TrimIsInfix | src/utils/blog.ts:60 | `trim()` keeps the infix between a blank prefix and a blank suffix |
| Strings.TrimIdempotent | src/utils/blog.ts:60 | trimming twice is trimming once |
| Strings.SplitLength | src/app/api/crypto-price/route.ts:21 | `split` on one character gives one more piece than there are separators |
| Strings.SplitJoin | src/utils/blog.ts:60 | the pieces of a split hold no separator and join back to the input |
| Strings.JoinSplit | src/utils/blog.ts:60 | separator-free pieces joined and split again come back unchanged |
| Strings.SplitOnSpacesJoin | src/utils/blog.ts:88 | `split(/\s+/)` of words joined by single spaces gives the words back |
| Strings.NatToString | src/app/api/crypto-price/route.ts:47 | a number's decimal text is non-empty digits with no leading zero |
| Strings.DecimalRoundTrip | src/utils/cloudflare-image-loader.ts:24-25 | reading a number's decimal text gives the number back |
| BlogSidebar.OtherPosts | src/components/Blog/BlogSidebar.tsx:13 | the filter keeps exactly the posts whose slug is not the current one |
| BlogSidebar.RecentPosts | src/components/Blog/BlogSidebar.tsx:13 | at most five posts, none of them the current one |
| BlogSidebar.RecentPostsSubsequence | src/components/Blog/BlogSidebar.tsx:13 | the selection keeps the listing order and only leaves posts out |
| BlogSidebar.RecentPostsSkipNothing | src/components/Blog/BlogSidebar.tsx:13 | an eligible post with fewer than five eligible posts before it is selected, at the position given by their number |
| BlogSidebar.RecentPostsShort | src/components/Blog/BlogSidebar.tsx:13 | fewer than five selected means every other post is selected |
| BlogSidebar.RecentPostsWithoutCurrent | src/components/Blog/BlogSidebar.tsx:13 | when the current slug is not listed, the selection is the first `min(5, n)` posts |
| BlogSidebar.OtherPostsAppend | src/components/Blog/BlogSidebar.tsx:13 | filtering a concatenation filters each part |
| ImageLoader.Encode | src/utils/cloudflare-image-loader.ts:23-27 | encoding never shortens a name or value |
| ImageLoader.Utf8 | src/utils/cloudflare-image-loader.ts:23-27 | a character encodes to one to four bytes, one byte exactly for ASCII |
| ImageLoader.PercentBytes | src/utils/cloudflare-image-loader.ts:23-27 | each byte becomes `%` and two upper-case hex digits |
| ImageLoader.EncodeUnreserved | src/utils/cloudflare-image-loader.ts:23-27 | text of unreserved characters serialises unchanged |
| ImageLoader.EncodeHasNoSeparators | src/utils/cloudflare-image-loader.ts:23-27 | an encoded name or value never holds `&` or `=` |
| ImageLoader.PairTexts | src/utils/cloudflare-image-loader.ts:23-27 | one `name=value` text per pair, in order |
| ImageLoader.SerializeSplit | src/utils/cloudflare-image-loader.ts:23-27 | splitting the serialised query at `&` gives back one text per pair |
| ImageLoader.CleanSrc | src/utils/cloudflare-image-loader.ts:30 | one leading slash is removed, and nothing else changes |
| ImageLoader.ImageUrl | src/utils/cloudflare-image-loader.ts:12-33 | `http://` and `https://` sources are returned unchanged; a local source gives a `/cdn-cgi/image/` URL ending in `/` and the cleaned path |
| ImageLoader.OptionsShape | src/utils/cloudflare-image-loader.ts:23-27 | the options are exactly `width=W&quality=Q&format=auto` with W and Q in decimal |
| ImageLoader.LocalUrl | src/utils/cloudflare-image-loader.ts:15-32 | a local URL is exactly `/cdn-cgi/image/width=W&quality=Q&format=auto/<path>` with Q the given quality or 75 |
| ImageLoader.DefaultQualityIs75 | src/utils/cloudflare-image-loader.ts:15 | leaving out the quality is the same as asking for 75 |
| ImageLoader.OneSlashRemoved | src/utils/cloudflare-image-loader.ts:30 | `/x` and `x` give the same URL unless `x` starts with another slash |
| ImageLoader.ImageUrlExample | src/utils/cloudflare-image-loader.ts:12-33 | `/images/a.png` at width 640 gives `/cdn-cgi/image/width=640&quality=75&format=auto/images/a.png` |
| ContactForm.AllFieldsComplete | src/components/ContactForm/index.tsx:7-16 | the form has these eight fields and no other |
| ContactForm.FormData.Set | src/components/ContactForm/index.tsx:69-72 | the edited field takes the new value and every other field keeps its value |
| ContactForm.Digits | src/components/ContactForm/index.tsx:32 | removing the non-digits leaves only digits and never lengthens the text |
| ContactForm.FieldError | src/components/ContactForm/index.tsx:24-35 | an error is a non-empty message, and only name, email, phone and address can have one |
| ContactForm.ValidationErrors | src/components/ContactForm/index.tsx:22-37 | only name, email, phone and address can be in the error map |
| ContactForm.CheckFields | src/components/ContactForm/index.tsx:22-35 | the four checks, run in order, build exactly the error map of the validation rules |
| ContactForm.Form.constructor | src/components/ContactForm/index.tsx:7-19 | empty text fields, `residential` and `asphalt`, no errors, not submitting, no success |
| ContactForm.Form.Validate | src/components/ContactForm/index.tsx:21-39 | the error map is rebuilt from the current values and the result is true exactly when it is empty; nothing else changes |
| ContactForm.Form.HandleChange | src/components/ContactForm/index.tsx:68-81 | the field takes the new value and that field's error, and only that one, is removed |
| ContactForm.Form.HandleSubmit | src/components/ContactForm/index.tsx:41-46 | submitting validates, and starts submitting only when there is no error |
| ContactForm.Form.CompleteSubmission | src/components/ContactForm/index.tsx:49-61 | the form is reset to its initial values, submitting stops and success is shown |
| ContactForm.Form.ClearSuccess | src/components/ContactForm/index.tsx:64 | only the success message is hidden |
| ContactForm.ValidationErrorsExact | src/components/ContactForm/index.tsx:21-36 | a field is in the error map exactly when its value fails its rule, with that rule's message |
| ContactForm.ValidationErrorsMessages | src/components/ContactForm/index.tsx:21-36 | every message in the error map is non-empty |
| ContactForm.RequiredRule | src/components/ContactForm/index.tsx:24-35 | name and address fail exactly when blank, with their `is required` messages |
| ContactForm.EmailRule | src/components/ContactForm/index.tsx:25-29 | a blank email is missing; a non-blank one is invalid exactly when `\S+@\S+\.\S+` matches nowhere |
| ContactForm.PhoneRule | src/components/ContactForm/index.tsx:30-34 | a blank phone is missing; a non-blank one fails exactly when it holds fewer than ten digits |
| ContactForm.OptionalFieldsPass | src/components/ContactForm/index.tsx:21-36 | property type, roof type, monthly bill and message never have an error |
| ContactForm.InitialFormErrors | src/components/ContactForm/index.tsx:7-36 | validating the untouched form reports the four required fields as missing |
| ContactForm.DigitsAppend | src/components/ContactForm/index.tsx:32 | the digits of a concatenation are the digits of each part |
| ContactForm.PhoneExample | src/components/ContactForm/index.tsx:30-34 | `(555) 123-4567` holds ten digits and passes |
| ContactForm.EmailExamples | src/components/ContactForm/index.tsx:27 | `jane@example.com` matches the email pattern and `jane@example` does not |
| Testimonials.PageCount | src/components/Testimonials/index.tsx:240 | the number of dots is the least number of pages of three covering the list |
| Testimonials.Window | src/components/Testimonials/index.tsx:103 | one to three reviews, the ones starting at the index, and three unless the list ends |
| Testimonials.NextIndex | src/components/Testimonials/index.tsx:91-95 | a step forward from a review stays on a review |
| Testimonials.PrevIndex | src/components/Testimonials/index.tsx:97-101 | a step back from a review stays on a review when there is at least a page of reviews |
| Testimonials.Carousel.constructor | src/components/Testimonials/index.tsx:88 | the carousel starts at the first review |
| Testimonials.Carousel.CurrentTestimonials | src/components/Testimonials/index.tsx:103 | the reviews on screen are one to three consecutive reviews from the index |
| Testimonials.Carousel.ActivePage | src/components/Testimonials/index.tsx:245 | the active dot is always one of the dots |
| Testimonials.Carousel.NextSlide | src/components/Testimonials/index.tsx:91-95 | the index moves a page forward, back to 0 past the end, and stays on a review |
| Testimonials.Carousel.PrevSlide | src/components/Testimonials/index.tsx:97-101 | the index moves a page back, to the last full page before the start, and stays on a review |
| Testimonials.Carousel.GoToPage | src/components/Testimonials/index.tsx:243-245 | clicking dot k moves to review 3k, and dot k becomes the active one |
| Testimonials.DotClick | src/components/Testimonials/index.tsx:240-245 | every dot starts a page inside the list, and that page's active dot is the dot clicked |
| Testimonials.StepsBetweenPages | src/components/Testimonials/index.tsx:91-101 | with whole pages the steps move between page starts and undo each other |
| Testimonials.StepsOffPage | src/components/Testimonials/index.tsx:91-101 | with seven reviews, forward from 6 gives 0 and back from 0 gives 4, not 6 |
| Testimonials.ForwardVisitsPages | src/components/Testimonials/index.tsx:91-95 | stepping forward from the start visits the page starts in order |
| Testimonials.ShippedReachable | src/components/Testimonials/index.tsx:88-101 | with the six shipped reviews exactly the indices 0 and 3 are reachable |
| Faq.Toggled | src/components/Solar/FAQ.tsx:29 | after a click either no item is open or the clicked one is |
| Faq.Accordion.constructor | src/components/Solar/FAQ.tsx:7 | the first answer is shown and no other |
| Faq.Accordion.Click | src/components/Solar/FAQ.tsx:29-35 | the clicked answer is shown exactly when it was hidden, and every other answer is hidden |
| Faq.AtMostOneVisible | src/components/Solar/FAQ.tsx:35 | at most one answer is shown |
| Faq.ToggleFlips | src/components/Solar/FAQ.tsx:29-35 | a click flips the clicked answer and hides all others |
| Faq.ToggleTwice | src/components/Solar/FAQ.tsx:29 | two clicks on one item restore the state when nothing or that item was open, and close everything when another item was open |
| FloatingChat.SendBlocked | src/components/FloatingChat.tsx:31 | sending is blocked, and the button disabled, exactly when the input is blank |
| FloatingChat.Chat.constructor | src/components/FloatingChat.tsx:7-15 | closed, empty input, the greeting alone, not typing, with the source's greeting and four canned replies |
| FloatingChat.Chat.SetMessage | src/components/FloatingChat.tsx:150 | typing changes only the input line |
| FloatingChat.Chat.HandleSend | src/components/FloatingChat.tsx:30-37 | a blank input changes nothing; otherwise the input as typed is appended as the user's message, the input cleared and typing shown |
| FloatingChat.Chat.Respond | src/components/FloatingChat.tsx:39-49 | exactly one canned reply, the one picked, is appended and typing stops |
| FloatingChat.Chat.HandleKeyPress | src/components/FloatingChat.tsx:151 | Enter has the effect of send; any other key changes nothing |
| FloatingChat.Chat.Open | src/components/FloatingChat.tsx:57 | the window opens; the transcript and input are kept |
| FloatingChat.Chat.Minimize | src/components/FloatingChat.tsx:95 | the window closes; the transcript and input are kept |
| FloatingChat.Chat.Close | src/components/FloatingChat.tsx:102 | the window closes; the transcript and input are kept |
| FloatingChat.AppendCounts | src/components/FloatingChat.tsx:35-47 | an appended message is counted on its own side only |
| FloatingChat.CountsSplit | src/components/FloatingChat.tsx:9-14 | every message is the user's or the bot's |
| FloatingChat.ReplyKeepsConsistent | src/components/FloatingChat.tsx:39-49 | a canned reply keeps the transcript opening with the greeting, every message well formed and the count of replies due exact |
| FloatingChat.AppendKeepsWellFormed | src/components/FloatingChat.tsx:35-47 | appending a well-formed message keeps the first message and every message well formed |
| FloatingChat.TranscriptBalance | src/components/FloatingChat.tsx:30-49 | the bot has never sent more than one message more than the user, and the transcript length is fixed by the user's messages and the replies still due |
| CryptoPrice.QueryGet | src/app/api/crypto-price/route.ts:17-18 | the value of the first pair with that name, or none when no pair has it |
| CryptoPrice.ParamOr | src/app/api/crypto-price/route.ts:17-18 | a missing or empty parameter takes the default, a non-empty one is kept |
| CryptoPrice.PlanFor | src/app/api/crypto-price/route.ts:16-26 | too many ids is refused with 400; otherwise upstream is asked for the defaulted ids and currency |
| CryptoPrice.Respond | src/app/api/crypto-price/route.ts:46-90 | 200 exactly on success with the upstream body unchanged, 504 exactly on a timeout, 500 otherwise, always a JSON body |
| CryptoPrice.Get | src/app/api/crypto-price/route.ts:14-92 | the answer is 400 with `Maximum 50 cryptocurrency IDs allowed` exactly when there are more than 50 ids |
| CryptoPrice.Options | src/app/api/crypto-price/route.ts:97-105 | 200 with no body, any origin, methods `GET, OPTIONS`, header `Content-Type` |
| CryptoPrice.EmptyParamDefaults | src/app/api/crypto-price/route.ts:17 | an `ids` parameter given only as empty takes the default, like a missing one |
| CryptoPrice.DefaultRequest | src/app/api/crypto-price/route.ts:17-18 | without parameters upstream is asked for `bitcoin,ethereum` in `usd` |
| CryptoPrice.DefaultIdsAccepted | src/app/api/crypto-price/route.ts:17-21 | the default ids are within the limit |
| CryptoPrice.TooManyIdsIffCommas | src/app/api/crypto-price/route.ts:21 | the ids are too many exactly when they hold 50 or more commas |
| CryptoPrice.FiftyIdsPass | src/app/api/crypto-price/route.ts:21 | up to 50 comma-free ids joined by commas are accepted |
| CryptoPrice.FiftyOneIdsFail | src/app/api/crypto-price/route.ts:21-26 | 51 pieces are refused, even empty ones |
| CryptoPrice.TrailingCommaCounts | src/app/api/crypto-price/route.ts:21 | a trailing comma adds one (empty) piece |
| CryptoPrice.OccurrencesAppend | src/app/api/crypto-price/route.ts:21 | the commas of a concatenation are those of its parts |
| CryptoPrice.RejectIgnoresUpstream | src/app/api/crypto-price/route.ts:21-26 | a refused request does not depend on upstream, so none is made |
| CryptoPrice.AcceptedFollowsUpstream | src/app/api/crypto-price/route.ts:28-61 | an accepted request answers what the upstream outcome for the defaulted parameters maps to |
| CryptoPrice.SuccessHeaders | src/app/api/crypto-price/route.ts:53-61 | a success carries `public, s-maxage=60, stale-while-revalidate=120` and the two CDN headers `public, s-maxage=60` |
| CryptoPrice.ErrorsNotCached | src/app/api/crypto-price/route.ts:66-90 | error answers carry no `Cache-Control` header |
| CryptoPrice.UpstreamStatusReported | src/app/api/crypto-price/route.ts:46-90 | an upstream status s gives 500 with `Failed to fetch cryptocurrency prices` and `CoinGecko API returned s` |
| CryptoPrice.TimeoutReported | src/app/api/crypto-price/route.ts:66-76 | a timeout gives 504 with `Request timeout - please try again` and a JSON content type |
| CryptoPrice.UnknownFailure | src/app/api/crypto-price/route.ts:82 | a throw that is not an `Error` is reported with `Unknown error` |

## Left out

- The markdown and front-matter libraries (`gray-matter`, `remark`, `remark-html`) are foreign code: they are function parameters, and a thrown exception is `None`. Front-matter values are modelled as strings only.
- File-system calls are a read-only snapshot value; `path.join` is plain concatenation of a normalised directory and a file name, without `..` or duplicate-slash normalisation.
- Dates: `new Date(...).getTime()` is a parameter, `new Date().toISOString()` is the load time passed in, and `formatDate` (locale formatting) is not part of this model. The order of posts whose dates do not parse (NaN comparisons) is not modelled: the timestamp parameter is a total integer function.
- Blog.SortNewestFirst: `Array.prototype.sort` is a library call; it is modelled as a stable insertion sort on a sequence, which is one of the orders the engine may produce for equal dates.
- `Promise.all`: the per-file loads are a sequential map; their order is then fixed by the sort.
- The `/i` flag of the tags heading folds only ASCII letters, which is all `Tags` needs; Unicode case folding is not modelled.
- Timers and randomness: the blink interval of the chat button (`showBlink`) is not modelled; the delayed callbacks of the chat and the form are the explicit steps `Chat.Respond`, `Form.CompleteSubmission` and `Form.ClearSuccess`; `Math.random` is the `pick` argument of `Chat.Respond`.
- FloatingChat.Chat.Respond: requires a reply to be due (`pending > 0`), since the callback exists only after a send; two sends before the first reply leave two replies due while the first reply already hides the typing indicator, as in the source.
- Testimonials.Carousel.constructor: requires at least one page (three reviews); with fewer, `prevSlide` would produce a negative index. The site ships six.
- The average rating of the testimonials uses floating point and `toFixed`; it is not part of this model.
- ImageLoader.ImageUrl: the width is a natural number; fractional, negative or non-finite widths and their JavaScript `toString` are not modelled, nor are lone surrogates, which `URLSearchParams` replaces with U+FFFD.
- The price route's `fetch`, `AbortController`, URL building with `encodeURIComponent`, JSON re-serialisation of the upstream body and `NextResponse` construction are not modelled: the upstream request is a function from the defaulted parameters to an abstract outcome, and the body is passed through as text. Logging with `console.error` is left out.
- CryptoPrice.Respond: a failed `response.json()` parse and a network error are both the `Failed` outcome with their message.
- The Header component, the presentation components (Hero, Features, Pricing, Benefits, HowItWorks, BlogCard, BlogContent, RelatedPosts), the pages, the layout and the animation setup are not part of this model: they render data without rules to check.
- White space for `trim`, `\s` and `\S` is the fixed set of characters JavaScript uses (the Unicode space separators listed explicitly); no Unicode normalisation.
- Faq.ToggleTwice: two clicks on one item restore the prior state only when nothing or that item was open; when another item was open, the first click opens the clicked item and the second closes it, so the earlier item stays closed.
