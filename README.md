# Manga2PDF core, modelled in Dafny

Manga2PDF is an AWS Lambda function with three routes:
- `/s` searches the catalogue (`pull_story_list`).
- `/f` summarises one series (`pull_story_info`).
- `/c` converts a range of chapters into one PDF. For each chapter it downloads the page images into a scratch directory, lists and naturally sorts that directory (`alphanum_sort`), lays each image out on a page (`add_page_to_pdf`), and then uploads the PDF to S3.

This project models the logic of `src/package/lambda_function.py` and proves properties of it:

- `PyStr`: the Python string operations the handler relies on:
  - slicing with negative and out-of-range bounds;
  - `str.find`;
  - `str(int)` and `int(str)`;
  - ASCII `isdigit` and `lower`.
- `NaturalSort` (`alphanum_sort`):
  - `re.split('([0-9]+)', name)` as `Split`, proved to be the unique alternation of non-digit and digit runs that concatenates back to the name;
  - the key of converted tokens and Python's lexicographic list order, proved a strict total order;
  - `sorted` as a stable insertion sort, proved to be a permutation, sorted and stable. It is also the only sequence with those properties.
- `PageLayout`: the millimetre scaling, the orientation choice and the per-axis clamp to the A4 size table.
- `Document`:
  - the FPDF object as a class `Pdf` whose `pages` field the methods update;
  - `add_page_to_pdf` with its PNG retry, its "Failure to convert" result, and the uncaught error of `Image.open` on a file it cannot read.
- `Pipeline`: the `/c` branch:
  - the derived names (series id, scratch directories, PDF file name, S3 key);
  - the chapter loop of lines 147-154 as two methods, `AddChapters` for the loop over chapters and `AddChapter` for the loop over one chapter's images. Each is proved equal to a step-by-step specification (`RunChapters`), and that specification is proved equal to a closed form. The closed form keeps every page when every listed file opens. Otherwise it stops at the first file `Image.open` cannot read, and the request fails with that file's path;
  - the proof that the files written as "1.jpg" … "n.jpg" come back from the natural sort in page order.
- `Story`: `pull_story_list` and `pull_story_info`, each over the elements BeautifulSoup would have located, with Python's `AttributeError`/`KeyError` as `Err` results. The story list is a dictionary that keeps its keys in insertion order, as the `/s` JSON reply shows them.

Collaborators the code calls but which are not modelled become inputs:
- The directory listing of each chapter after its download is a function from chapter number to names (`Pipeline.Listing`).
- Each image file's properties are fields of `Document.ImageFile`: whether `Image.open` can read it, its pixel size, and whether FPDF can embed it directly or after the PNG re-save.
- The parsed HTML is given as the sequences of tags `find_all` would return.

Where one might expect otherwise, the model follows the code:
- Scratch files are removed only when the request succeeds; nothing runs `cleanup` after an exception.
- The scratch directory is `/tmp/{series_id}`, which is not unique per invocation.
- The `/f` summary holds only the description and the chapter count, with no genres.
- The `/c` route replies with the fixed text "see s3" rather than a link.

## Model

| member | source | states |
|---|---|---|
| PyStr.NatToString | src/package/lambda_function.py:148 | `str(n)` is a non-empty digit string with no leading zero whose decimal value is `n` |
| PyStr.IntToString | src/package/lambda_function.py:148 | `str(i)` for any integer, as in `str(chapter)` at line 148 and `str(idx+1)` at line 69: a minus sign for negatives, then NatToString of the magnitude; ParseIntToString and IntToStringInjective characterise it |
| PyStr.ParseInt | src/package/lambda_function.py:147 | `int(s)` succeeds exactly on an optional sign followed by one or more ASCII digits |
| PyStr.ParseIntToString | src/package/lambda_function.py:147-148 | `int(str(i)) == i` for every integer |
| PyStr.IntToStringInjective | src/package/lambda_function.py:148 | different chapter numbers give different `str(chapter)` |
| PyStr.SliceFrom | src/package/lambda_function.py:133 | `s[i:]` is a suffix of `s`; its length for non-negative, too-large and negative `i` follows Python's slice rules |
| PyStr.SliceTo | src/package/lambda_function.py:97 | `s[:j]` is a prefix of `s`; its length follows Python's slice rules, `s[:-1]` dropping the last character |
| PyStr.FindFrom | src/package/lambda_function.py:97 | the scan behind `str.find` from a start index: -1 exactly when the substring occurs nowhere at or after the start, otherwise the first index at or after it where it occurs |
| PyStr.Find | src/package/lambda_function.py:97 | `str.find` is -1 exactly when the substring never occurs, otherwise the first index where it occurs |
| PyStr.Lower | src/package/lambda_function.py:19 | `lower()` keeps the length, leaves every non-capital as it is, moves each ASCII capital to its small letter, and leaves no capital |
| PyStr.LowerNoUpper | src/package/lambda_function.py:19 | `lower()` leaves a text without capitals unchanged |
| PyStr.LowerIdempotent | src/package/lambda_function.py:19 | lowering twice is lowering once |
| PyStr.LowerAppend | src/package/lambda_function.py:19 | lowering distributes over concatenation |
| NaturalSort.Split | src/package/lambda_function.py:20 | `re.split('([0-9]+)', name)` with its capturing group, built one character at a time; it always has at least one piece, and SplitSound and SplitUnique characterise it |
| NaturalSort.Convert | src/package/lambda_function.py:19 | `convert`: a digit run becomes its decimal number, any other piece its lower-cased text; ConvertLower states its case blindness |
| NaturalSort.Key | src/package/lambda_function.py:20 | `alphanum_key`: the converted pieces of the split, in order; KeyIgnoresCase, KeyAlternates and KeysAlign characterise it |
| NaturalSort.TextLess | src/package/lambda_function.py:21 | Python's `<` on two strings, code point by code point with a proper prefix first; TextLessIrreflexive, TextLessTransitive and TextLessTotal prove it a strict total order |
| NaturalSort.TokenLess | src/package/lambda_function.py:21 | `<` between two key entries: numbers by value, texts by TextLess; TokenLessIrreflexive, TokenLessTransitive and TokenLessTotal prove it a strict total order |
| NaturalSort.KeyLess | src/package/lambda_function.py:21 | Python's lexicographic `<` on two key lists; KeyLessIrreflexive, KeyLessTransitive and KeyLessTotal prove it a strict total order |
| NaturalSort.SortBy | src/package/lambda_function.py:21 | `sorted(names, key=...)` as a stable insertion sort; SortByPermutes, SortBySorted, SortByStable and StableSortUnique characterise its result |
| NaturalSort.AlphanumSort | src/package/lambda_function.py:18-21 | `alphanum_sort`: `sorted` with `alphanum_key`; the SortBy lemmas and the Pipeline page-file lemmas characterise it |
| NaturalSort.SplitSound | src/package/lambda_function.py:20 | the pieces of `re.split('([0-9]+)', name)` alternate non-digit and digit runs, odd in number, interior text runs non-empty, and join back to `name` |
| NaturalSort.PushCharSound | src/package/lambda_function.py:20 | adding one character in front of a name keeps its split an alternation of runs that joins back to the longer name |
| NaturalSort.RunSplitHead | src/package/lambda_function.py:20 | a name starts with a digit exactly when the first piece of any run alternation for it is empty, and the first character sits in the first non-empty piece |
| NaturalSort.SplitUnique | src/package/lambda_function.py:20 | any such alternation that joins back to `name` is the split of `name` |
| NaturalSort.SplitLower | src/package/lambda_function.py:19-20 | splitting a lower-cased name gives the runs of the name, each lower-cased |
| NaturalSort.ConvertLower | src/package/lambda_function.py:19 | `convert` gives the same token for a run and its lower-cased form |
| NaturalSort.KeyIgnoresCase | src/package/lambda_function.py:19-20 | a name and its lower-cased form have the same key, so the sort ignores ASCII case |
| NaturalSort.KeyAlternates | src/package/lambda_function.py:19-20 | a key has odd length, with numbers exactly at odd positions, so two keys never compare a number with a text |
| NaturalSort.KeysAlign | src/package/lambda_function.py:19-21 | two keys hold the same kind of token at every shared position |
| NaturalSort.TextLessIrreflexive | src/package/lambda_function.py:21 | no text is below itself in Python's string order |
| NaturalSort.TextLessTransitive | src/package/lambda_function.py:21 | Python's string order is transitive |
| NaturalSort.TextLessTotal | src/package/lambda_function.py:21 | two different texts are ordered one way or the other |
| NaturalSort.KeyLessIrreflexive | src/package/lambda_function.py:21 | no key is below itself in the list order `sorted` uses |
| NaturalSort.KeyLessTransitive | src/package/lambda_function.py:21 | the list order on keys is transitive |
| NaturalSort.KeyLessTotal | src/package/lambda_function.py:21 | two different keys are ordered one way or the other |
| NaturalSort.TokenLessIrreflexive | src/package/lambda_function.py:21 | no token of a key is below itself |
| NaturalSort.TokenLessTransitive | src/package/lambda_function.py:21 | the order on tokens is transitive |
| NaturalSort.TokenLessTotal | src/package/lambda_function.py:21 | two different tokens are ordered one way or the other |
| NaturalSort.KeyLeTransitive | src/package/lambda_function.py:21 | comparing names by their keys is transitive |
| NaturalSort.KeyLeTotal | src/package/lambda_function.py:21 | any two names are comparable by their keys |
| NaturalSort.KeyLeAntisymmetric | src/package/lambda_function.py:21 | two names each at most the other have the same key |
| NaturalSort.InsertByPermutes | src/package/lambda_function.py:21 | inserting one name keeps every name, adding only that one |
| NaturalSort.InsertBySorted | src/package/lambda_function.py:21 | inserting into a key-sorted sequence keeps it sorted |
| NaturalSort.InsertByStable | src/package/lambda_function.py:21 | inserting in front of equal keys leaves each equal-key group in input order |
| NaturalSort.SortByPermutes | src/package/lambda_function.py:21 | `sorted` returns a permutation of its input |
| NaturalSort.SortBySorted | src/package/lambda_function.py:21 | `sorted` returns the names in non-decreasing key order |
| NaturalSort.SortByStable | src/package/lambda_function.py:21 | names with equal keys keep their input order |
| NaturalSort.StableSortUnique | src/package/lambda_function.py:21 | any key-sorted sequence that keeps each equal-key group in input order is `sorted`'s result |
| NaturalSort.SortedStableUnique | src/package/lambda_function.py:21 | two key-sorted sequences with the same equal-key groups are equal |
| NaturalSort.SortedSameHead | src/package/lambda_function.py:21 | two such sequences start with the same name |
| NaturalSort.SortedHeadLe | src/package/lambda_function.py:21 | the first name of a sorted sequence is at most every other name |
| NaturalSort.SortedPermutationUnique | src/package/lambda_function.py:21 | two sorted permutations of names with distinct keys are equal |
| NaturalSort.SortedPermutationSameHead | src/package/lambda_function.py:21 | two sorted permutations of names with distinct keys start with the same name |
| PageLayout.MaxWidth | src/package/lambda_function.py:139-142 | `pdf_sizes[orientation]['w']`: 210 for Portrait, 297 for Landscape; Resolve and ResolveTallStrip state the clamp against it |
| PageLayout.MaxHeight | src/package/lambda_function.py:139-142 | `pdf_sizes[orientation]['h']`: 297 for Portrait, 210 for Landscape; Resolve and ResolveTallStrip state the clamp against it |
| PageLayout.Resolve | src/package/lambda_function.py:88-91 | Portrait exactly when width < height; each side is its scaled size or the orientation's bound, never above either |
| PageLayout.ResolveKeepsFittingSize | src/package/lambda_function.py:90-91 | an image smaller than the page on both axes keeps its scaled size |
| PageLayout.ResolveTallStrip | src/package/lambda_function.py:88-91 | a 100×4000 image is a 26.4583×297 portrait page; a 1000×500 image is a 264.583×132.2915 landscape page |
| Document.ImagePath | src/package/lambda_function.py:86 | the path `f'{chapter_dir}/{img}'` handed to `Image.open` and `pdf.image`; UnreadablePath and AddPageToPdf use it |
| Document.PngPath | src/package/lambda_function.py:97 | the re-save path built from `img.find(".jpg")`; PngPathOfJpg and PngPathWithoutJpg characterise it |
| Document.PageFor | src/package/lambda_function.py:86-98 | the page `add_page_to_pdf` adds for a file that opens; PageForShape characterises it and AddPageToPdf is proved to add it |
| Document.PlaceOnLast | src/package/lambda_function.py:94 | placing an image changes only the last page, appending the image to it |
| Document.PlaceOnBlank | src/package/lambda_function.py:92-94 | an image placed right after `add_page` is the only image of the new page |
| Document.Pdf.constructor | src/package/lambda_function.py:138 | `FPDF()` starts with no pages |
| Document.Pdf.AddPage | src/package/lambda_function.py:92 | `add_page` appends one blank page of the given orientation |
| Document.Pdf.Image | src/package/lambda_function.py:94 | `image` succeeds exactly when the file embeds, then placing it on the last page; on failure the document is unchanged |
| Document.PngPathOfJpg | src/package/lambda_function.py:97-98 | "stem.jpg" is re-saved as "stem.png" in the same directory |
| Document.PngPathWithoutJpg | src/package/lambda_function.py:97-98 | a name without ".jpg" loses its last character in the PNG name |
| Document.PageForShape | src/package/lambda_function.py:85-100 | the added page has the computed orientation and at most one image at the origin within the page bounds; it is blank exactly when both embeds fail |
| Document.AddPageToPdf | src/package/lambda_function.py:85-100 | a file `Image.open` cannot read raises with its path and adds no page; otherwise appends exactly one page, keeps the earlier ones, and returns the constant FailureToConvert, "Failure to convert" (line 100), exactly when the image and its PNG copy both fail |
| Pipeline.SeriesId | src/package/lambda_function.py:133 | `series_id = s[len(s) - 8:]`; SeriesIdSuffix characterises it |
| Pipeline.Directory | src/package/lambda_function.py:136 | `directory = f'/tmp/{series_id}'`; ChapterDirsDisjoint places every chapter directory under it |
| Pipeline.PdfFileName | src/package/lambda_function.py:137 | the local PDF name `/tmp/{series_id}_{f}-{l}.pdf`; UploadKeyRoundTrip relates it to the S3 key |
| Pipeline.ChapterDir | src/package/lambda_function.py:148 | the scratch directory `/tmp/{series_id}/{chapter}/` of one chapter; ChapterDirsDisjoint characterises it |
| Pipeline.UploadKey | src/package/lambda_function.py:157 | the S3 key `file_name[5:]`; UploadKeyRoundTrip characterises it |
| Pipeline.PageFileName | src/package/lambda_function.py:69 | the name `f'{i}.jpg'` a downloaded page is written under; the PageFileName lemmas give its split, key and order |
| Pipeline.SeriesIdSuffix | src/package/lambda_function.py:133 | the series id is the last 8 characters; for shorter inputs, the negative start index gives the last `min(len, 8 - len)` characters |
| Pipeline.UploadKeyRoundTrip | src/package/lambda_function.py:157 | `file_name[5:]` (file name from line 137) is "{sid}_{f}-{l}.pdf", and "/tmp/" + key is the PDF's local path again |
| Pipeline.ChapterDirsDisjoint | src/package/lambda_function.py:148 | each chapter directory lies in the request's directory, and two chapters share one only when they are the same chapter |
| Pipeline.WrittenNames | src/package/lambda_function.py:69 | the images of an n-page chapter are written as n files, "1.jpg" to "n.jpg" |
| Pipeline.PageFileNameSplit | src/package/lambda_function.py:20 | `re.split` cuts a page file "N.jpg" (the name written at line 69) into the empty text, the digits of N and ".jpg" |
| Pipeline.PageFileNameRuns | src/package/lambda_function.py:19 | those three pieces convert to the empty text, the number N and ".jpg" |
| Pipeline.PageFileNameKey | src/package/lambda_function.py:19-20 | the key of "N.jpg" is ['', N, '.jpg'] |
| Pipeline.PageFileNameOrder | src/package/lambda_function.py:21 | "i.jpg" sorts before "j.jpg" exactly when i < j |
| Pipeline.PageFileNameLe | src/package/lambda_function.py:21 | a page file never sorts after one for a later position |
| Pipeline.PageFileNameKeyInjective | src/package/lambda_function.py:19-20 | two page files with the same key are for the same position |
| Pipeline.WrittenNamesSorted | src/package/lambda_function.py:18-21 | the page files written at line 69, "1.jpg", …, "n.jpg", are already in natural order |
| Pipeline.WrittenNamesKeysDistinct | src/package/lambda_function.py:18-21 | no two page files written at line 69 share a key |
| Pipeline.SortWrittenNames | src/package/lambda_function.py:153 | in whatever order the listing returns the files written at line 69, the natural sort puts them in page order |
| Pipeline.ThreePageFilesSorted | src/package/lambda_function.py:18-21 | three page files in increasing position are sorted with distinct keys |
| Pipeline.SortRotatedPageFiles | src/package/lambda_function.py:21 | a rotated listing of three page files sorts back into position order |
| Pipeline.SortsTenAfterTwo | src/package/lambda_function.py:18-21 | ["2.jpg", "10.jpg", "1.jpg"] sorts to ["1.jpg", "2.jpg", "10.jpg"] |
| Pipeline.ExampleFileNames | src/package/lambda_function.py:69 | positions 1, 2 and 10 are written as "1.jpg", "2.jpg" and "10.jpg" |
| Pipeline.PagesOf | src/package/lambda_function.py:153-154 | the loop over a chapter's names appends one page per name |
| Pipeline.PagesOfAt | src/package/lambda_function.py:153-154 | page k of the loop comes from name k |
| Pipeline.PagesOfStep | src/package/lambda_function.py:153-154 | one more name adds its page at the end |
| Pipeline.ChapterPages | src/package/lambda_function.py:153-154 | a chapter whose files all open contributes one page per listed image |
| Pipeline.SortedLength | src/package/lambda_function.py:153 | the natural sort neither adds nor drops a name |
| Pipeline.SortedMembers | src/package/lambda_function.py:153 | the natural sort lists exactly the names of the directory |
| Pipeline.RangePages | src/package/lambda_function.py:147-154 | the document the loop builds when every file opens: each chapter of the range in ascending order with one page per naturally sorted image; RangePagesCount, RangePagesSplit, RangePagesStep, RangePagesFront and WrittenChapterInPlace characterise it |
| Pipeline.ImageCount | src/package/lambda_function.py:147-153 | the number of images listed in the chapters of a range; RangePagesCount equates it with the page count |
| Pipeline.BlocksOfSplit | src/package/lambda_function.py:147 | the pages of a chapter range split at any chapter in it |
| Pipeline.BlocksOfAround | src/package/lambda_function.py:147 | one chapter's pages sit between those of the chapters before and after it |
| Pipeline.RangePagesCount | src/package/lambda_function.py:147-154 | when every file opens, the document has exactly as many pages as the chapters in range have listed images |
| Pipeline.RangePagesSplit | src/package/lambda_function.py:147 | the pages of a chapter range are those of its lower part followed by those of its upper part |
| Pipeline.RangePagesStep | src/package/lambda_function.py:147-154 | one more chapter's pages go after all pages of the earlier chapters |
| Pipeline.RangePagesFront | src/package/lambda_function.py:147-154 | the first chapter's pages come before those of the rest of the range |
| Pipeline.ChapterPagesStep | src/package/lambda_function.py:153-154 | one more image adds its page after the chapter's earlier pages |
| Pipeline.ChapterPagesAt | src/package/lambda_function.py:153-154 | page k of a chapter is the page for its k-th sorted image |
| Pipeline.ChapterPagesPrefix | src/package/lambda_function.py:153-154 | the pages of a chapter's first k images are its first k pages |
| Pipeline.WrittenChapterInPlace | src/package/lambda_function.py:147-154 | a downloaded chapter's pages sit between those of earlier and later chapters, in page-file order |
| Pipeline.WrittenChapterOrder | src/package/lambda_function.py:153-154 | page k of a downloaded chapter comes from "k+1.jpg", the name line 69 gives it |
| Pipeline.OpenCount | src/package/lambda_function.py:153-154 | the images read before the loop meets one `Image.open` cannot read: all of them open, and the next one, if any, does not |
| Pipeline.OpenCountNext | src/package/lambda_function.py:153-154 | the loop gets past an image `Image.open` reads |
| Pipeline.OpenCountStop | src/package/lambda_function.py:153-154 | the loop stops at the first image `Image.open` cannot read |
| Pipeline.ChapterOpensListed | src/package/lambda_function.py:153-154 | the loop gets through a chapter exactly when every file listed for it opens |
| Pipeline.RangeOpensListed | src/package/lambda_function.py:147-154 | some chapter of the range stops the loop exactly when one of its listed files does not open |
| Pipeline.OpenedPages | src/package/lambda_function.py:153-154 | the pages one chapter appends before `Image.open` meets a file it cannot read; OpenedPagesPrefix characterises it |
| Pipeline.OpenedPagesPrefix | src/package/lambda_function.py:153-154 | a chapter appends a prefix of its pages, all of them exactly when every file opens |
| Pipeline.ChapterOutcome | src/package/lambda_function.py:153-154 | what one chapter's image loop ends with: nothing, or `Image.open`'s error naming UnreadablePath; LoopOutcomeErr characterises it |
| Pipeline.UnreadablePath | src/package/lambda_function.py:86 | the error of a chapter that stops names the first file in natural order that does not open; every earlier file opens |
| Pipeline.FirstUnreadable | src/package/lambda_function.py:147-154 | the first chapter of the range that stops the loop: every earlier chapter opens completely |
| Pipeline.LoopOutcomeErr | src/package/lambda_function.py:147-154 | the loop raises exactly when a chapter of the range stops it; the error names the first file, in natural order, of the first such chapter that does not open, and every earlier chapter opens |
| Pipeline.LoopPages | src/package/lambda_function.py:147-154 | the closed form of the pages the chapter loop leaves: all chapters before the first that stops, then that chapter's opened pages; LoopPagesPrefix and RunChaptersClosedForm characterise it |
| Pipeline.LoopOutcome | src/package/lambda_function.py:147-154 | the closed form of what the chapter loop raises: the outcome of the first chapter that stops, if any; LoopOutcomeErr and RunChaptersClosedForm characterise it |
| Pipeline.LoopPagesPrefix | src/package/lambda_function.py:147-154 | the pages the loop leaves are a prefix of those it writes when every file opens, and all of them when it raises nothing |
| Pipeline.RunChapters | src/package/lambda_function.py:147-154 | the chapter loop step by step: each chapter appends its opened pages and the first unreadable file stops the loop; RunChaptersClosedForm, RunChaptersOutcome and RunChaptersPages characterise it |
| Pipeline.RunChaptersClosedForm | src/package/lambda_function.py:147-154 | running the loop chapter by chapter ends with the closed-form pages and outcome |
| Pipeline.RunChaptersOutcome | src/package/lambda_function.py:147-154 | the loop raises exactly when a listed file of the range does not open; it then names the first file of `alphanum_sort(listdir)` that does not open, in the first chapter that has one. Every earlier name of that chapter and every file of the earlier chapters opens |
| Pipeline.RunChaptersFail | src/package/lambda_function.py:147-154 | the loop raises exactly when a listed file of the range does not open |
| Pipeline.RunChaptersStop | src/package/lambda_function.py:147-154 | a raising loop names the first unreadable file of `alphanum_sort(listdir)` in the first chapter that has one |
| Pipeline.LoopOutcomeListed | src/package/lambda_function.py:147-154 | the error of the loop, restated over the naturally sorted listing: the first unreadable name of the first chapter that has one |
| Pipeline.StopListed | src/package/lambda_function.py:153-154 | a stop found in the sorted listing is a listed file that does not open, after names that all open and chapters whose listed files all open |
| Pipeline.RunChaptersPages | src/package/lambda_function.py:147-154 | the document the loop leaves is a prefix of the full one, and all of it when nothing is raised |
| Pipeline.AddChapter | src/package/lambda_function.py:148-154 | the inner loop appends the pages of one chapter's naturally sorted images up to the first that does not open, keeps the earlier pages, and raises that file's error |
| Pipeline.AddChapters | src/package/lambda_function.py:138-154 | a fresh document gets the pages and the outcome of the loop over chapters lo..hi, ascending, none when hi < lo |
| Pipeline.ConvertReply | src/package/lambda_function.py:133-160 | the reply of the `/c` branch: bad numbers, the chapter loop's error, or "see s3"; ConvertFails, ConvertBadNumber, ConvertUnreadable and ConvertDocument characterise it |
| Pipeline.ReplyOf | src/package/lambda_function.py:154-160 | the reply once the loop has ended: `Image.open`'s error propagates, otherwise "see s3" with the PDF name and key; ConvertFromRun and ConvertDocument characterise it |
| Pipeline.ConvertRuns | src/package/lambda_function.py:147-160 | over valid bounds a request fails exactly when the chapter loop raises |
| Pipeline.ConvertFails | src/package/lambda_function.py:133-160 | given each chapter's listing after its download, a request fails exactly when `f` or `l` is not an integer or a listed file of a chapter in range does not open |
| Pipeline.ConvertBadNumber | src/package/lambda_function.py:147 | a bad `f` is reported first, then a bad `l`, and bad numbers are the only source of that error |
| Pipeline.ConvertUnreadable | src/package/lambda_function.py:86 | a failing request over valid bounds names the first file, in `alphanum_sort(listdir)` order, that does not open in the first chapter that has one; every earlier name and chapter opens |
| Pipeline.ConvertDocument | src/package/lambda_function.py:137-160 | a successful reply is "see s3" with the PDF name and S3 key, and its pages cover chapters `int(f)`..`int(l)` ascending (none if `l < f`), each chapter naturally sorted |
| Pipeline.ConvertFromRun | src/package/lambda_function.py:147-160 | over valid bounds, the reply follows from how the chapter loop ends |
| Pipeline.RunRequest | src/package/lambda_function.py:137-160 | over valid bounds and each chapter's listing in natural order, the chapter loop on a fresh document and the upload give the reply of how the specified loop ends |
| Pipeline.ConvertRequest | src/package/lambda_function.py:133-160 | the `/c` branch gives the specified reply, whose failures and document the lemmas above characterise |
| Story.ImageFields | src/package/lambda_function.py:35-39 | the image loop succeeds exactly when every image has `alt` and `src`; it then gives ('', '') for no images, else the last image's `alt` and `src` |
| Story.ImageFieldsErrSticky | src/package/lambda_function.py:37-39 | the first image missing an attribute decides the error |
| Story.ImageFieldsLastErr | src/package/lambda_function.py:37-39 | a well-formed prefix followed by an image lacking `alt` fails with "alt", else with "src" |
| Story.ImageFieldsErrAt | src/package/lambda_function.py:37-39 | a missing `alt` is reported before a missing `src` |
| Story.EntryOf | src/package/lambda_function.py:35-44 | an anchor yields an entry exactly when it has `href` and all its images are complete; the entry's title and thumbnail are the last image's `alt` and `src` (empty when it has none), and its chapters are always [] |
| Story.Link | src/package/lambda_function.py:36 | `link = data['href']` of a well-formed anchor; StoryListKeys, StoryListLinks and StoryListLastWins characterise the dictionary it keys |
| Story.Flatten | src/package/lambda_function.py:33-34 | the anchors the nested loops over items and their anchors visit, item after item; FlattenAppend, FlattenStep and FlattenAround characterise it |
| Story.FlattenAppend | src/package/lambda_function.py:33-34 | anchors of consecutive items are visited item after item |
| Story.FlattenStep | src/package/lambda_function.py:33-34 | one more item appends its anchors |
| Story.FlattenAround | src/package/lambda_function.py:33-34 | the anchors of all items are those up to anchor j of item i followed by the rest |
| Story.StoryListOf | src/package/lambda_function.py:30-45 | the dictionary the nested loops build over all anchors, or the first anchor's error; StoryListOk, StoryListKeys, StoryListOrder and StoryListLastWins characterise it |
| Story.StoryListErrSticky | src/package/lambda_function.py:33-44 | the first malformed anchor decides the error of the whole list |
| Story.StoryListErrAt | src/package/lambda_function.py:33-44 | an error at one anchor is the error of the whole list |
| Story.StoryListEntryErr | src/package/lambda_function.py:33-44 | a failing anchor after well-formed ones fails the list with its own error |
| Story.StoryListStep | src/package/lambda_function.py:40-44 | one more anchor writes its entry under its link |
| Story.Put | src/package/lambda_function.py:40 | `story_list[link] = {...}`: a dictionary assignment. PutValid states that a new key is listed last, an existing key keeps its place, the new entry is stored under the link and every other entry is unchanged; StoryListOrder and StoryListLastWins give the resulting key order and entries |
| Story.PutValid | src/package/lambda_function.py:40-44 | a dictionary assignment keeps each key listed once and in step with the entries, stores the new entry under its key, leaves every other entry unchanged, and lists a new key after all others while an existing key keeps its place |
| Story.StoryListSnoc | src/package/lambda_function.py:33-44 | the dictionary over the anchors is the one over all but the last with the last one's entry assigned |
| Story.StoryListValid | src/package/lambda_function.py:31-44 | the dictionary the loops build lists each key once, exactly the keys with entries |
| Story.StoryListLinks | src/package/lambda_function.py:33-40 | the dictionary's key order holds exactly the anchors' links |
| Story.StoryListOrder | src/package/lambda_function.py:31-45 | keys appear once each, in the order of the first anchor that carries them, as `json.dumps` writes them |
| Story.StoryListOk | src/package/lambda_function.py:30-45 | the list is built exactly when every anchor has `href` and every image has `alt` and `src` |
| Story.StoryListKeys | src/package/lambda_function.py:36-40 | the list's keys are exactly the anchors' links |
| Story.StoryListLastWins | src/package/lambda_function.py:40-44 | a link's entry comes from the last anchor with that link |
| Story.ReadImages | src/package/lambda_function.py:35-39 | the loop over a link's images gives the specified title and thumbnail or error |
| Story.AddItem | src/package/lambda_function.py:34-44 | one item's anchors are added to the dictionary, or their error is the error of the whole list |
| Story.PullStoryList | src/package/lambda_function.py:30-45 | a missing container is an error; otherwise the nested loops give the list specified over all anchors of all items |
| Story.PullStoryInfo | src/package/lambda_function.py:49-59 | a missing description is reported before a missing chapter list; otherwise desc is `text[15:]` and chapters counts the chapter entries |
| Story.InfoDescription | src/package/lambda_function.py:56 | the description drops exactly its first 15 characters, or is empty when shorter |

## Left out

- HTTP requests, BeautifulSoup parsing and `pull_chapter_image`'s download are not modelled. Their results are inputs: the listing of each chapter directory and the located tags. What `pull_chapter_image` writes enters only through `Pipeline.WrittenNames`.
- A failed image download is not modelled as such. At lines 70-74 the file is opened for writing before the request, so the failed image stays in the listing as an empty file and the later images are never written. The chapter's listing is taken as given. An empty file enters as an `ImageFile` whose `opens` is false, and `Image.open` raising on it ends the request with an error.
- PIL and FPDF internals are not modelled. Pixel size and whether each embed attempt succeeds are fields of `ImageFile`, and the PNG re-save itself is not modelled.
- `pdf.output`, the S3 upload and `cleanup` are I/O and are not modelled. The model returns the file name and key they would use.
- Nothing in the code guarantees that scratch storage is removed after a failure, so that invariant is not stated.
- Python floats are modelled as exact reals. `float(w * 0.264583)` rounding is not modelled.
- PyStr.Lower: lowers ASCII letters only. `str.lower` on other Unicode letters is not modelled.
- PyStr.ParseInt: accepts only an optional sign followed by ASCII digits. It does not model `int()` accepting surrounding whitespace, underscores between digits or non-ASCII digits.
- NaturalSort.Convert: `str.isdigit` is modelled as ASCII digits only. A piece made only of non-ASCII digits (which Python's `isdigit` accepts and `int` may then reject) is treated as text. `pull_chapter_image` only writes names of ASCII digits followed by ".jpg", so this does not arise for the files the loop reads.
- NaturalSort.TokenLess: a number against a text is given a fixed order. Python would raise `TypeError` there, but `KeyAlternates` shows the comparison never happens.
- NaturalSort.SortBy: models `sorted` by its result, a stable sort, not by Timsort's steps.
- Missing query parameters (`KeyError`), `print` calls and the routing on `rawPath` are not modelled.
- `os.mkdir` failing because a directory already exists is not modelled.
