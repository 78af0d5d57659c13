# Job search keyword comparison and posted-date filter

A verified model of the two pieces of deterministic logic in the job search
page (`streamlit_app.py`):

- **Keyword comparison** (`compare_keywords`, module `Keywords` in
  `keywords.dfy`). The function takes a job's keyword list and a resume's
  keyword list. It returns the job keywords the resume also has (*matched*,
  a set intersection) and the job keywords the resume lacks (*missing*, a
  set difference). Each result is built as `list(set(...))`, so it holds no
  keyword twice and its order is unspecified. Keywords are compared by exact
  string equality. The model picks one order: distinct job keywords in the
  order of their last occurrence. Every contract speaks only of elements and
  of the absence of duplicates. `SameElementsArePermutations` shows that two
  such lists with the same elements differ only by order.
- **Posted-date filter** (the filtering step of `fetch_jobs`, module `Jobs`
  in `jobs.dfy`, dates in `dates.dfy`). The job records become a table whose
  rows carry index labels 0..n-1. A boolean mask keeps the rows with
  `date_posted >= cutoff`, and those rows keep their labels and their order.
  `reset_index(drop=True)` then relabels them 0..m-1. A table is a `seq` of
  `Row(index, job)`. A date is a `(year, month, day)` triple compared
  lexicographically. Both sides of the source's comparison are midnight
  timestamps, so comparing calendar days gives the same answer. The mask
  keeps labels, and those labels are the original positions of the rows.
  `FilterJobsByDateSelects` uses this to state that the filter keeps order.

## Model

| member | source | states |
|---|---|---|
| `Keywords.CompareKeywords` | streamlit_app.py:102-109 | the elements of matched are exactly the job keywords that are also resume keywords; the elements of missing are exactly the job keywords that are not resume keywords; neither list repeats a keyword, even when the inputs do |
| `Keywords.Distinct` | streamlit_app.py:107-108 | `list(set(xs))`: has the same elements as `xs`, has no duplicates, and is no longer than `xs` |
| `Keywords.Select` | streamlit_app.py:107-108 | keeps exactly the elements of `xs` whose membership in the other keyword set is the one asked for (`&` or `-`); keeps a duplicate-free list duplicate-free; is no longer than `xs` |
| `Keywords.ComparisonPartitionsJobKeywords` | streamlit_app.py:107-108 | matched and missing are disjoint; together they hold exactly the distinct job keywords; their lengths add up to the number of distinct job keywords |
| `Keywords.SameElementsArePermutations` | streamlit_app.py:107-108 | two duplicate-free lists with the same elements are permutations of each other, so the unspecified order of `list(set(...))` is its only freedom |
| `Keywords.ComparisonDependsOnlyOnElements` | streamlit_app.py:107-108 | repeating or reordering the input keywords leaves matched and missing the same up to order (as multisets) |
| `Keywords.EmptyJobKeywords` | streamlit_app.py:107-108 | an empty job keyword list gives empty matched and missing lists, whatever the resume keywords are |
| `Keywords.EmptyResumeKeywords` | streamlit_app.py:107-108 | an empty resume keyword list gives an empty matched list, and a missing list that holds every distinct job keyword exactly once |
| `Keywords.AgileResearchExample` | streamlit_app.py:107-108 | job keywords agile and research against resume keyword agile: matched is agile and missing is research |
| `Keywords.ExactStringEquality` | streamlit_app.py:107-108 | keywords that differ in case or in trailing spaces do not match |
| `Keywords.NoDuplicatesCardinality` | streamlit_app.py:107-108 | a list from `list(set(...))` has exactly as many entries as the set it came from |
| `Dates.BeforeIsStrictTotalOrder` | streamlit_app.py:73-74 | the day order is a strict total order, so `>=` on posted dates is reflexive and transitive, and any two dates are comparable |
| `Jobs.ToFrame` | streamlit_app.py:70 | the table built from the records has the default index 0..n-1, its records in order are the input records, and its rows are exactly the records paired with their positions |
| `Jobs.ResetIndex` | streamlit_app.py:76 | after the reset, the same records stand in the same order and row k is labelled k |
| `Jobs.MaskByDate` | streamlit_app.py:74 | keeps exactly the rows dated on or after the cutoff; is no longer than the table; keeps labels increasing, so the kept rows stay in table order |
| `Jobs.IncreasingFrameDeterminedByRows` | streamlit_app.py:74 | two tables with increasing labels that hold the same rows are equal |
| `Jobs.MaskByDateIsOrderedSelection` | streamlit_app.py:74 | on a table with increasing labels, any table with increasing labels that holds exactly the kept rows is the mask's result |
| `Jobs.FilterJobsByDate` | streamlit_app.py:69-76 | the result is indexed 0..m-1, is no longer than the input, and each of its records is an input record dated on or after the cutoff |
| `Jobs.FilterJobsByDateSelects` | streamlit_app.py:73-76 | the result's records are the input records at the labels the mask kept; these labels strictly increase and are exactly the positions whose date is on or after the cutoff; so order is kept and every record's fields are unchanged |
| `Jobs.FilterJobsByDateMembers` | streamlit_app.py:73-74 | a record is in the result exactly when it is an input record dated on or after the cutoff |
| `Jobs.CutoffIsInclusive` | streamlit_app.py:74 | an input record dated exactly on the cutoff is kept; one dated earlier is dropped |
| `Jobs.FetchJobsAugust19` | streamlit_app.py:51-76 | with the mocked listings, cutoff 2024-08-19 keeps only the TechCorp listing |
| `Jobs.FetchJobsAugust18` | streamlit_app.py:51-76 | with the mocked listings, cutoff 2024-08-18 keeps both listings, in their original order |
| `Jobs.FetchJobsAugust21` | streamlit_app.py:51-76 | with the mocked listings, cutoff 2024-08-21 gives the empty table that the page answers with "No jobs found" |

## Left out

- The page layout, the sidebar inputs, the search button, the spinner, the error and warning messages and the results table (streamlit_app.py:8-38, 142-157). This is user-interface plumbing. The input checks at lines 146-149 (missing API key, blank resume) only branch on form state.
- `setup_openai` and `extract_keywords` (streamlit_app.py:40-41, 81-94). These are network calls to a language-model service that return free text. The model's keyword lists are parameters. As written, `extract_keywords` returns one string, and `set()` of a string would compare characters. The model follows the intent that the extractor yields keyword lists.
- The module-level call at streamlit_app.py:98-99. It uses names that are never defined, so the module fails on import. The calls at lines 116 and 126 pass one argument to a three-parameter function. None of this is modelled.
- `process_and_display_jobs` (streamlit_app.py:111-143). Each iteration depends on the external extractor. The `", ".join` of set-ordered lists (lines 135-136) has no fixed order.
- Parsing `date_posted` and the cutoff with `pd.to_datetime`, and `strftime` formatting (streamlit_app.py:73, 133). Dates are given directly as (year, month, day). Calendar validity (month 1-12, day in range) is not checked, because the order is total on all triples.
- The DataFrame's other columns and their types. A row is a record with an integer label, and a table is a sequence of rows.
- `Keywords.Distinct`: the model fixes one order for `list(set(...))` (last occurrence). Python leaves the order unspecified. No contract or lemma depends on this order.
- `Jobs.FetchJobs`: the job title and the job site are accepted but unused, as in the source. Its behaviour is stated only through the three concrete lemmas on the mocked listings. The general lemmas about `FilterJobsByDate` cover the rest.
