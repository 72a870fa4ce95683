# HypGen data pipeline and chat front end, modelled in Dafny

HypGen is a retrieval assistant for metallurgy research. Its data pipeline
has four stages:

- A scraper collects article records from arXiv and OpenAlex.
  - It reads the publication year from the arXiv date.
  - It guesses a country from an affiliation.
  - It rebuilds OpenAlex abstracts from their inverted index.
  - It de-duplicates the records before saving them.
- A cleaner assembles each article into one labelled text
  ("Title: … Abstract: … Authors: … Keywords: …"). It cleans that text,
  drops short ones and cuts the rest into overlapping token windows, snapping
  a window's end back to a sentence boundary when one lies late enough.
- An index builder loads those chunks. It validates each line, fills in and
  normalises metadata, and counts every line.
- A Streamlit front end keeps an ordered history of chats, labels them in the
  sidebar, and shows an abstract snippet for each retrieved source.

This project models that core and proves what it promises. Each module
follows one part of the source:

| module | file | models |
|---|---|---|
| `Text` | text.dfy | Python string helpers: `strip`, `split()`, `join`, `find`/`rfind`, slicing, `lower`, `str(n)` |
| `Tokenizers` | tokenizer.dfy | the tokenizer, as a given pair of `encode`/`decode` functions |
| `Cleaning` | cleaning.dfy | `clean_text` |
| `Truncation` | truncation.dfy | `smart_truncate` |
| `Chunking` | chunking.dfy | `split_into_chunks` |
| `Pipeline` | pipeline.dfy | the reading loop, skip rule and statistics of `main` in scripts/clean_and_split.py |
| `Parse` | parse.dfy | `extract_arxiv_year`, `extract_country_from_affiliation`, `save_jsonl`'s de-duplication, and the OpenAlex abstract and country |
| `FaissLoad` | faiss_load.dfy | `load_chunks` |
| `App` | app.dfy | `init_chat_history`, `create_new_chat`, `delete_chat`, the chat label, the abstract snippet |

Code that loops or updates state is modelled as methods with loops:

- the reading loops of `main` and `load_chunks`;
- the two greedy loops of `smart_truncate`;
- the sliding-window loop;
- the keyword scan;
- the de-duplication loop;
- the array rebuild of the abstract;
- the metadata normalisation;
- the chat session class.

Each such method is proved equal to a specification function. The
properties are then proved about those functions.

A 3000-token document with the default 1500/200 budget gives three chunks:
0–1500, 1300–2800 and 2600–4100. After the second window, `i = 2800 - 200 =
2600` is still below 3000, so the loop runs once more
(`Chunking.ThreeThousandTokens`).

## Model

| member | source | states |
|---|---|---|
| Cleaning.FilterAllowed | scripts/clean_and_split.py:27-28 | every character outside the allow-list becomes a space; the length is kept and allowed characters stay in place |
| Cleaning.Collapse | scripts/clean_and_split.py:29 | the result is single-spaced, starts with a space exactly when the input starts with whitespace (and otherwise with the same character), and stays within the allow-list |
| Cleaning.WordsCollapse | scripts/clean_and_split.py:29 | each whitespace run is replaced by one space: the words (`str.split()`) before and after the collapse are the same |
| Cleaning.CollapseKeepsNonSpace | scripts/clean_and_split.py:29 | collapsing keeps exactly the visible characters of its input, in order |
| Cleaning.Normalize | scripts/clean_and_split.py:27-31 | filter, collapse and strip give a normalised text: allowed characters only, single spaces, no edge spaces |
| Cleaning.CleanText | scripts/clean_and_split.py:16-31 | `clean_text` is "" for an empty text; otherwise it is normalised, and its visible characters are the allowed visible characters left after the regex passes |
| Cleaning.NormalizedJoinsWords | scripts/clean_and_split.py:27-31 | a normalised text is its words joined by single spaces |
| Cleaning.NormalizeJoinsWords | scripts/clean_and_split.py:27-31 | filter, collapse and strip give `" ".join(filtered.split())` of the filtered text |
| Cleaning.CleanTextJoinsWords | scripts/clean_and_split.py:16-31 | `clean_text` of a non-empty text is the words of the filtered text after the regex passes, joined by single spaces |
| Cleaning.NormalizeIdempotent | scripts/clean_and_split.py:27-31 | cleaning a cleaned text changes nothing |
| Truncation.SplitSentences | scripts/clean_and_split.py:34 | `re.split(r'(?<=[.!?])\s+', …)` yields at least one piece, even for an empty text |
| Truncation.SentencesShape | scripts/clean_and_split.py:34 | the pieces are cut exactly at the whitespace runs after `.`, `!` or `?`: every piece but the last is non-empty and ends with one of them, no piece holds such a run, later pieces start after the whole run, and the first piece is a prefix of the text |
| Truncation.SentencesRejoin | scripts/clean_and_split.py:34 | on a single-spaced text the pieces joined by spaces give the text back |
| Truncation.FitCountSpec | scripts/clean_and_split.py:38-43 | the greedy loop keeps the longest prefix whose running sum stays within budget; the next item is the first that does not fit |
| Truncation.SmartTruncate | scripts/clean_and_split.py:33-62 | the method returns `Truncated(tk, text, max_tokens)` |
| Truncation.KeepWords | scripts/clean_and_split.py:46-56 | the word loop keeps the words whose `word + " "` counts fit the budget, stopping at the first that does not |
| Truncation.TruncatedKeepsSentencePrefix | scripts/clean_and_split.py:38-62 | when the first sentence fits, the result is the first k ≥ 1 sentences joined by spaces; their counts fit and sentence k would not |
| Truncation.TruncatedFallsBackToWords | scripts/clean_and_split.py:44-60 | when the first sentence does not fit, the result is "" or the fitting words of that sentence plus "..." |
| Truncation.TruncatedEmptyIff | scripts/clean_and_split.py:44-62 | the result is empty exactly when the first sentence and its first word both exceed the budget (or it has no word) |
| Truncation.TruncatedIsTextPrefix | scripts/clean_and_split.py:38-62 | on a cleaned text the kept sentences are a prefix of the text |
| Chunking.LastSentenceEndSpec | scripts/clean_and_split.py:94-98 | the boundary found is -1 or the start of the last ". ", "? " or "! " |
| Chunking.LastSentenceEndIsMaxRFind | scripts/clean_and_split.py:94-98 | the scan equals `max` of the three `rfind` calls |
| Chunking.WindowAt | scripts/clean_and_split.py:91-103 | a window that snaps ends at its start plus the re-encoded token count; one that does not ends at its start plus `max_tokens` |
| Chunking.NegativeEndCountsFromBack | scripts/clean_and_split.py:91-92 | with a negative budget the first window is every token but the last `-max_tokens`, as `tokens[0:end]` with `end < 0` gives |
| Chunking.WindowShape | scripts/clean_and_split.py:90-103 | a window is the decoded slice, unless it snaps; it snaps exactly when the boundary lies past 70% of that text, and the text is then cut after the terminal and re-encoded |
| Chunking.CutWindow | scripts/clean_and_split.py:91-103 | one pass of the loop body computes `WindowAt` at its start offset |
| Chunking.SplitIntoChunks | scripts/clean_and_split.py:64-129 | the method returns `Split(tk, text, metadata, max_tokens, overlap)` |
| Chunking.SplitLoop | scripts/clean_and_split.py:86-127 | the sliding loop emits the records of `CutsFrom(0)`, numbered from 0 |
| Chunking.CutsLastEnd | scripts/clean_and_split.py:125-127 | the loop stops only once the last end minus the overlap reaches the token count |
| Chunking.SplitOffsets | scripts/clean_and_split.py:105-127 | split records are numbered `source_0`, `source_1`, …; the first starts at 0; each next start is the previous end minus the overlap, strictly increasing |
| Chunking.SplitRecordsAreWindows | scripts/clean_and_split.py:105-120 | each record counts its unstripped window, while its `chunk_text` is that window stripped |
| Chunking.SplitIdsUnique | scripts/clean_and_split.py:106 | chunk ids are pairwise distinct |
| Chunking.SplitCoversTokens | scripts/clean_and_split.py:90-127 | with a non-negative overlap every token offset lies in some record's range |
| Chunking.SplitWithinBudget | scripts/clean_and_split.py:70-103 | if re-encoding a decoded prefix never gives more tokens, every record has `chunk_tokens <= max_tokens` |
| Chunking.SnappedTextEndsWithTerminal | scripts/clean_and_split.py:100-114 | a snapped chunk's text ends with its sentence's terminal character |
| Chunking.SplitBlank | scripts/clean_and_split.py:65-66 | whitespace-only text gives no records |
| Chunking.SplitFitsWhole | scripts/clean_and_split.py:70-84 | a text that fits gives one full-text record `source_0` with `chunk_tokens == total_tokens` and no offsets |
| Chunking.NoSnapProgress | scripts/clean_and_split.py:90-127 | when no window snaps and `0 <= overlap < max_tokens`, every pass moves the start forward, so the loop terminates from any start |
| Chunking.ThreeThousandTokens | scripts/clean_and_split.py:86-127 | 3000 tokens with no boundary and the defaults give three records: 0–1500, 1300–2800, 2600–4100 |
| Pipeline.Parts | scripts/clean_and_split.py:158-182 | at most four labelled parts, none empty, none when every field is absent or empty, the title part first when there is a title |
| Pipeline.FullText | scripts/clean_and_split.py:184 | the text is empty exactly when there are no parts, and starts with the first part |
| Pipeline.AssembleText | scripts/clean_and_split.py:158-184 | the part-by-part assembly gives `FullText` |
| Pipeline.MetadataOf | scripts/clean_and_split.py:191-200 | the chunk source is the article's `source`, or `unknown_<line number>` without one; the title is the article's title, or "" |
| Pipeline.CountMetadata | scripts/clean_and_split.py:202-205 | the year counter grows by one exactly when the year is present and non-zero; the country counter grows exactly when the country is present, non-empty and not "Unknown" |
| Pipeline.Report | scripts/clean_and_split.py:223-230 | the average is set only when chunks exist; it is then the floor of total tokens over chunk count |
| Pipeline.ProcessLines | scripts/clean_and_split.py:148-230 | the reading loop and report give `Report(Run(lines))` |
| Pipeline.ProcessLine | scripts/clean_and_split.py:149-221 | blank or undecodable lines change nothing; a decoded value that is not an object only adds one to `total_articles` (its `.get` raises and is caught); a decoded object takes one `StepArticle` |
| Pipeline.ProcessArticle | scripts/clean_and_split.py:155-221 | the loop body on a decoded object is `StepArticle`, including a null title that raises inside the split after the counters are bumped |
| Pipeline.CleanArticle | scripts/clean_and_split.py:158-185 | the cleaned text is `CleanText` of the assembled parts |
| Pipeline.KeepArticle | scripts/clean_and_split.py:202-211 | a kept article updates the year and country counters, then appends its split; with a null title the counters stay bumped and nothing is appended |
| Pipeline.KeepChunks | scripts/clean_and_split.py:207-211 | the split of the cleaned text is appended, and `total_chunks` grows by its length |
| Pipeline.RunAccounted | scripts/clean_and_split.py:148-221 | after any input, `total_chunks` is the number of chunks, `total_articles` the number of decoded lines (objects or not), and skipped articles never count a year or country |
| Pipeline.StepAccounted | scripts/clean_and_split.py:149-211 | one line keeps those counters in agreement |
| Pipeline.ArticleOutcome | scripts/clean_and_split.py:185-211 | an article is either skipped (cleaned text under 200 characters, no chunks) or counts its year and country and appends exactly the split of its cleaned text, or nothing when its null title makes the split raise |
| Pipeline.EmptyArticleSkipped | scripts/clean_and_split.py:158-189 | an article with no title, abstract, authors or concepts is skipped |
| Pipeline.AuthorsCappedAtThree | scripts/clean_and_split.py:166-171 | authors after the third never reach the text |
| Pipeline.ConceptsCappedAtFive | scripts/clean_and_split.py:175-180 | concepts after the fifth never reach the text |
| Parse.ParseIntDigits | scripts/parse.py:30-34 | `int()` of a stripped run of digits is its decimal value |
| Parse.ParseIntRejects | scripts/parse.py:30-34 | a character other than whitespace, a digit, a sign or `_` makes `int()` fail |
| Parse.ArxivYearOfDate | scripts/parse.py:30-32 | a date starting with four digits gives that year |
| Parse.ArxivYearRejects | scripts/parse.py:30-34 | a date whose first four characters hold a letter gives None |
| Parse.ArxivYearOfEmpty | scripts/parse.py:30-34 | the empty date gives None |
| Parse.ExtractCountryFromAffiliation | scripts/parse.py:36-59 | the keyword scan returns `CountryOf(affiliation)` |
| Parse.FirstCountryFromSpec | scripts/parse.py:56-59 | the scan gives the first country in table order with a keyword in the lowered text, or "Other" when none matches |
| Parse.CountryOfSpec | scripts/parse.py:53-59 | the result is "Unknown" exactly for a missing or empty affiliation, "Other" exactly when no keyword matches, and otherwise the first matching country |
| Parse.CountryOfIsLabel | scripts/parse.py:36-59 | the result is always "Unknown", "Other" or a country of the table |
| Parse.JerusalemReadsAsUsa | scripts/parse.py:38-57 | substring matching reads "Jerusalem" as USA, because "usa" occurs inside it |
| Parse.ArticleKey | scripts/parse.py:187-189 | an article has a key exactly when its title and abstract are both present and non-empty |
| Text.LowerIdempotent | scripts/parse.py:189 | lowering an already lowered text changes nothing |
| Text.LowerOtherCyrillic | scripts/parse.py:189 | Ukrainian and Serbian capitals (Є, І, Ї, Ў, Ђ, Ј) lower to their small letters, as `str.lower` does |
| Parse.Dedup | scripts/parse.py:183-192 | the loop returns `Unique(ArticleKey, articles)` |
| Parse.UniqueKeys | scripts/parse.py:184-192 | the kept articles have pairwise distinct keys, and the same set of keys as all keyed articles |
| Parse.DedupSpec | scripts/parse.py:183-192 | every kept article has a title and an abstract; keys are distinct; every keyed input article's key is kept |
| Parse.UniqueKeepsFirsts | scripts/parse.py:186-192 | each kept article is an input article that is the first with its key |
| Parse.UniqueIsFirstsInOrder | scripts/parse.py:183-192 | the kept articles are the input articles at strictly increasing positions, and those positions are exactly the first occurrences of each key |
| Parse.MaxOf | scripts/parse.py:120 | `max` of a non-empty list is an element and bounds every element |
| Parse.MaxPositionSpec | scripts/parse.py:120 | the largest position bounds every listed position and is itself listed |
| Parse.AbstractWords | scripts/parse.py:121-124 | the word list has one slot per position up to the largest |
| Parse.RebuildAbstract | scripts/parse.py:117-125 | the rebuild returns `RebuiltAbstract(index)`: "" without an index, None when a word lists no position, otherwise the words joined by spaces |
| Parse.PlaceWord | scripts/parse.py:123-124 | writing a word at its positions sets exactly those slots to it and leaves every other slot as it was |
| Parse.AbstractWordsSpec | scripts/parse.py:121-124 | a listed position holds the word of the last entry that lists it, so a later entry overwrites an earlier one; an unlisted position holds "" |
| Parse.GapGivesDoubleSpace | scripts/parse.py:121-125 | a gap in the positions leaves an empty word and so a double space |
| Parse.OpenAlexCountry | scripts/parse.py:126-138 | the loop returns `WorkCountry(authorships)` |
| Parse.CollectedSpec | scripts/parse.py:127-131 | nothing is collected exactly when no authorship has institutions; the first value comes from the first that has |
| Parse.WorkCountrySpec | scripts/parse.py:126-138 | the country is "Unknown" when none of the first three authorships has an institution; otherwise it is the mapped code of the first such authorship's first institution |
| Parse.OnlyFirstThreeAuthorships | scripts/parse.py:127 | authorships after the third never matter |
| Parse.MissingCodeGivesEmptyCountry | scripts/parse.py:128-131 | an institution without a country code gives "" rather than "Unknown" |
| FaissLoad.Len | scripts/build_faiss.py:50 | `len` succeeds exactly on strings, lists and dicts, and gives a string's length |
| FaissLoad.Cut | scripts/build_faiss.py:56 | slicing succeeds exactly on strings and lists, and gives a prefix of at most n items |
| FaissLoad.RawMetadata | scripts/build_faiss.py:54-69 | the metadata exists exactly when the title can be sliced, and then has the 14 keys |
| FaissLoad.NormalValue | scripts/build_faiss.py:71-75 | a normalised value holds no None at the top or inside a list; other values are unchanged; lists keep their length |
| FaissLoad.Normalized | scripts/build_faiss.py:71-75 | normalisation keeps the keys and leaves no None value |
| FaissLoad.NormalizeMetadata | scripts/build_faiss.py:71-75 | the in-place rewrite of every entry gives `Normalized(metadata)` |
| FaissLoad.LineOutcome | scripts/build_faiss.py:45-46 | a line is passed over exactly when it is blank |
| FaissLoad.LoadRecord | scripts/build_faiss.py:48-87 | the record body gives `RecordOutcome` |
| FaissLoad.LoadLine | scripts/build_faiss.py:45-87 | one line gives `LineOutcome` |
| FaissLoad.CountOutcome | scripts/build_faiss.py:50-87 | a loaded document is appended, and the counter of the outcome grows by one |
| FaissLoad.LoadChunks | scripts/build_faiss.py:30-96 | the loop gives the documents and counters of `Load(lines)`, in file order |
| FaissLoad.FoldAccounting | scripts/build_faiss.py:43-87 | for any line outcome: `total` counts every line, `loaded` is the number of documents, and the four outcome counters sum to the lines not passed over |
| FaissLoad.LoadAccounting | scripts/build_faiss.py:43-87 | every line counts in `total`; every non-blank line counts in exactly one of `loaded`, `skipped_short`, `skipped_invalid`, `errors`; `loaded` equals the documents returned |
| FaissLoad.BlankLineOnlyCounted | scripts/build_faiss.py:44-46 | a blank line only increments `total` |
| FaissLoad.SkippedInvalidSpec | scripts/build_faiss.py:50-52 | `skipped_invalid` happens exactly for a dict without `chunk_text` when `min_length <= 0`; with a positive minimum that record counts as short |
| FaissLoad.SkippedShortSpec | scripts/build_faiss.py:50-52 | a record is short exactly when it is a dict whose `chunk_text` is missing under a positive minimum, or has a length below the minimum |
| FaissLoad.LoadedIff | scripts/build_faiss.py:50-79 | a record loads exactly when it is a dict whose `chunk_text` is a string of at least `min_length` and whose title can be sliced |
| FaissLoad.LoadedDocument | scripts/build_faiss.py:54-79 | a loaded document's content is the stripped `chunk_text`; its metadata has all 14 keys, no None, and a title of at most 200 items |
| FaissLoad.LoadedDefault | scripts/build_faiss.py:54-75 | a key the record lacks holds its default after normalisation |
| FaissLoad.DefaultValues | scripts/build_faiss.py:55-68 | the defaults: title "Без названия", chunk id `chunk_<line number>`, zero token counts and offsets, `is_full_text` false |
| FaissLoad.NullTitleFails | scripts/build_faiss.py:56 | a null title raises before normalisation could fix it, so the record counts as an error |
| App.Put | app.py:65-66 | `h[k] = v` keeps the dict well formed, sets k, leaves other keys alone, appends a new key and keeps an existing key's place |
| App.Remove | app.py:73 | `del h[k]` drops exactly that key and shortens the order by one |
| App.RemoveWellFormed | app.py:73 | removal keeps the order and the keys in agreement |
| App.FirstAfterRemove | app.py:76-78 | after a removal the first key is the old first, or the second when the first was removed |
| App.NewChatIdFresh | app.py:65 | while no chat has been deleted, `chat_{n+1}` is a new id |
| App.NewChatIdCollides | app.py:65-66 | after a deletion `chat_{n+1}` can name a live chat, whose messages the new chat then replaces |
| App.NewChatOnEmpty | app.py:65-66 | on an empty history the new chat is `{"chat_1": []}` |
| App.ChatSession.InitChatHistory | app.py:24-50 | a missing, empty or unreadable file or an empty dict gives `{"chat_1": []}`; otherwise the stored dict is used; the first key is current and the last results are cleared |
| App.ChatSession.CreateNewChat | app.py:59-67 | adds `chat_{n+1}` with no messages (overwriting a chat with that id), makes it current, clears the last results, and keeps the current chat among the keys |
| App.ChatSession.DeleteChat | app.py:71-87 | an absent id gives false and changes nothing; a present one is removed and the last results cleared; if it was current, the first remaining chat, or a new `chat_1`, becomes current |
| App.FirstUser | app.py:123 | the index of the first message whose role is "user", or none when there is none |
| App.ChatLabel | app.py:122-131 | a label is at most 33 characters long |
| App.ChatLabelSpec | app.py:122-131 | no messages gives "..."; no user message gives "Пустой чат"; otherwise the first user content up to 30 characters, cut to 30 plus "..." when longer, or "Чат" when there is none |
| App.MarkedSnippet | app.py:299-310 | when an "Authors:" follows the first "Abstract:" before any second "Abstract:", the snippet is the stripped text between them |
| App.FragmentUnlessMarked | app.py:299-314 | in every other case the snippet is the first 300 characters plus "..." |

## Left out

- The regex passes of `clean_text` that drop math, citations and author-year references (scripts/clean_and_split.py:20-26) use non-greedy regex semantics. They are a parameter `prepass` of `Cleaning.CleanText`. The allow-list filter, collapse and strip after them are modelled exactly.
- The tokenizer vocabulary is not modelled. `encode`/`decode` are given functions.
- Chunking.SplitWithinBudget: holds only under the stated assumption that re-encoding a decoded prefix gives no more tokens, which the model cannot check without the vocabulary, and only for a non-negative budget: with a negative one `tokens[i:end]` counts back from the end and a window can hold more tokens than the budget (`Chunking.NegativeEndCountsFromBack`).
- Chunking.SplitLoop: the loop has no guard against a start that does not move forward. The model requires `Chunking.ProgressFrom` at offset 0: every start the loop reaches is followed by a strictly later start or by the end of the text. A run in which some start moves back or stays put is not modelled; such a run may cycle for ever or may still finish.
- Chunking.SplitIntoChunks: carries the same requirement through `Chunking.SplitTerminates`, which asks for `ProgressFrom` only on the split path (a non-blank text with more tokens than the budget).
- The 0.7 snap threshold is the integer comparison `10 * idx > 7 * len`. Python compares against the float `len * 0.7`, which differs when `len * 0.7` rounds (e.g. len = 170). Floating point is not modelled.
- Unicode: `str.lower` is modelled exactly for Basic Latin, Latin-1 and the Cyrillic blocks U+0400-U+052F (`Text.LowerChar`). Every other case mapping leaves the character unchanged in the model: Latin Extended (including İ, which Python lowers to two characters), Greek, Armenian and the rest, and the Kelvin sign U+212A. `int()` covers ASCII digits, signs, surrounding whitespace and underscores, but not other Unicode digits.
- `isspace` is modelled for the characters the text helpers treat as whitespace.
- File I/O, logging and printing are not modelled: the raw JSONL, the chunks file, `chat_history.json`, the progress messages and the percentage lines of the report. Inputs are sequences of lines or already-decoded records.
- `json.loads` is a parameter. A null title is modelled (it raises inside the split). Fields of unexpected types are not modelled: non-string titles, non-list authors, dicts inside author lists.
- Pipeline.MetadataOf: a key present with JSON null (source, pdf_url, doi, country, authors) is read as a missing key and takes its default. The source carries the None on: a null source gives chunk ids `None_0`, `None_1`, ... and the records hold None for the other fields. The counters are the same either way.
- The metadata key `type` of `main` is not carried on chunk records, because `split_into_chunks` never copies it.
- Parse.ArticleKey: the key is built with the modelled `lower`/`strip`, so a title in a script outside Basic Latin, Latin-1 and Cyrillic keeps its capitals in the key, where Python lowers them.
- Parse.RebuildAbstract: positions are natural numbers. A negative position, which Python would write from the end of the list, is not modelled.
- Parse.OpenAlexCountry: a `country_code` that is JSON null gives the country None in the source. The model treats it as a missing code, giving "".
- Network access, rate-limit sleeps, the arXiv XML regex scraping and the rest of `search_*` are not modelled.
- FaissLoad.LoadChunks: returns the counters, which the source only logs. Python's `str()` of a list element is a parameter `str`. JSON numbers are integers in the model.
- The `Document` class of the vector-store library is a pair of page content and metadata. The index building itself (`create_faiss_index`: embeddings, torch, FAISS) is not modelled.
- App.ChatSession.InitChatHistory: models the first run of a session. On later reruns the session keys already exist and nothing changes. A history file holding JSON that is not a dict of message lists is not modelled.
- `save_chat_history` and the Streamlit widgets, tabs, `st.success` and `st.rerun` are not modelled. The four `last_*` values are kept as optional texts, since only their clearing matters here.
- App.ChatLabel: a message whose `content` is JSON null (which makes the source raise) is not modelled; content is present or missing.
- rag.py (LLM and similarity-search calls) and g.py (plotting) are not modelled.
