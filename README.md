# Insurance backend: a verified model of its core

This project models, in Dafny, the core of a Django REST backend for a
private health insurance portal:

- **Catalog.** The schema has insurance companies, tariffs and users.
  Tariffs are either main tariffs or add-on ("additional") tariffs, and a
  main tariff links to add-ons. Each user may have one uploaded contract.
- **Catalog import.** A management command and a stand-alone script load
  the catalog from a JSON list. Each works company by company in two phases:
  it first creates every add-on named for the company, then creates each
  main tariff and relinks it to its add-ons.
- **User endpoints.** Registration with deferred activation; the email
  verification link; login; password change; the insurance selection and
  "my tariff" views; the tariff list with its filters; the company and
  tariff serializers.
- **Contract chatbot.** The text of a user's contract comes from the stored
  text or from the PDF pages. It is cut into paragraphs at blank lines and
  whitespace-normalised. The paragraph of highest score is returned; the
  first one wins a tie.
- **Voiceflow bridge.** Request payloads are built from the frontend's
  data. The session variables are built from the user's profile, through
  the key mappings. Traces come back from the agent and are parsed into
  messages, choices and audio. The endpoint orders its effects as reset,
  set-variables, interact.
- **PDF text extraction utility.**

What the deployed program does is mostly I/O and ORM calls. The model
therefore has two layers.

The state layer is `Store.Database`. It is a class whose fields are the
tables, held as maps keyed by primary key. Its `Valid()` predicate is the
schema (module `Models`):

- foreign keys never dangle;
- email and username are unique;
- a contract is keyed by an existing user.

Only the ORM operations (`get_or_create`, `set`, `create_user`, `save` and
the cascading deletes) are methods of this class. The views that change
state (`UserViews.VerifyEmail`, `UserViews.SelectInsurance`,
`UserSerializers.Register`, `UserSerializers.ChangePassword`) and the
import (`CatalogImport.ImportCatalog`, `ClearCatalog`, `Handle`) are
module-level methods that take the database as a parameter `db` and
modify it through those operations. Each is proved against a pure function
of the old state: `SelectInsuranceOf`, `ChangePasswordOf`, `VerifyOutcome`,
and `Imported` for the import.

The value layer models the request bodies as dynamic JSON (`JsonData.Json`).
On top of it sit:

- Python's truthiness, `dict.get` and `or` defaults;
- the Django REST framework field rules: blank and required checks,
  trimming, `max_length`, and integer coercion from strings with bounds.

The order of checks follows the code. Where the code raises, the model
gives the HTTP status that the exception produces. Examples: a `KeyError`
gives 500, a request-client exception gives 502, and `is_valid(raise_exception=True)`
gives 400 with field errors.

Behaviour of the code that the model reproduces as written:

- `VerifyEmailView` names the local variable `User` inside the `try`.
  The `except` clause then reads that unbound local, so an undecodable uid
  raises and gives 500 instead of 400 (`UserViews.VerifyOutcome`).
- `get_profile_completed` is defined inside `Meta`, so it is never used.
  The serialized flag is the stored column, not a computed one
  (`UserSerializers.ProfileFlagNotComputed`).
- Registration reads `first_name` and `last_name` with `[]`. Those fields
  are optional on the model, so a missing one raises `KeyError` (500)
  (`UserSerializers.NewUser`).
- The chatbot does not guard an empty paragraph list: text that is only
  whitespace leaves no paragraphs to score, the similarity call raises on
  zero samples, and the view gives 500 (`Chatbot.BlankContractFails`).
- `users/views.py` never defines or imports `logger`, so
  `ContactMessageCreateView.perform_create` (users/views.py:104) raises
  `NameError` before it saves anything, and the contact endpoint answers
  500. That endpoint is not part of this model.
- The insurance selection does not check tariff types. An add-on can be
  saved as the main tariff, and a main tariff among the add-ons
  (`UserViews.SelectionIgnoresTypes`).

`users/serializers.py` defines `TariffSerializer` and
`InsuranceCompanySerializer` twice. The later definitions (lines 209 and 229)
replace the earlier ones (63 and 72) and are the ones modelled.

## Model

Rows for functions that only compute (no `ensures` of their own) name, in
the third column, the lemmas that state what they promise.

| member | source | states |
|---|---|---|
| Text.Words | users/views.py:241 | `str.split()`, computed; stated by `WordsWellFormed`, `WordsOfSpace`, `WordsAppend` and `WordsAroundSpace` |
| Text.Join | users/views.py:241 | `sep.join(parts)`, computed; stated by `JoinAppend`, `JoinEmpty` and `JoinLength` |
| Text.Clean | users/views.py:241 | `" ".join(s.split())`, computed; stated by `CleanShape`, `CleanIdempotent` and `WordsOfJoin` |
| Text.WordsWellFormed | users/views.py:241 | `str.split()` yields non-empty words with no whitespace |
| Text.Strip | voiceflow/services/kb_filters.py:12 | `str.strip()`: the result is the text left between a whitespace prefix and a whitespace suffix; it is empty exactly for blank text, otherwise it has no whitespace at either end; it is the identity on already-trimmed text |
| Text.WordsOfSpace | users/views.py:241 | blank text splits into no words, and only blank text does |
| Text.WordsAppend | users/views.py:241 | splitting distributes over a concatenation cut at whitespace |
| Text.WordsAroundSpace | users/views.py:236-241 | a whitespace run separates the words on its two sides |
| Text.JoinAppend | users/views.py:241 | joining two non-empty lists is joining each and putting the separator between |
| Text.JoinEmpty | users/views.py:242 | a join of non-empty strings is empty only for no strings |
| Text.JoinLength | users/views.py:229-231 | a join's length is the parts' total length plus one separator per gap |
| Text.WordsOfJoin | users/views.py:241 | splitting words joined by single spaces gives back the words |
| Text.JoinNormalized | users/views.py:241 | words joined by single spaces form a normalised string |
| Text.CleanShape | users/views.py:241-243 | the collapse is empty exactly for blank text, and otherwise normalised |
| Text.CleanIdempotent | users/views.py:241 | collapsing twice equals collapsing once |
| Text.NormalizedHasNoNewline | users/views.py:236-241 | a cleaned paragraph holds no line feed |
| Segmenter.RunEnd | users/views.py:236 | the `\s*` run from a position is maximal |
| Segmenter.LastNewline | users/views.py:236 | finds the last line feed of a range, or reports that there is none |
| Segmenter.FirstNewline | users/views.py:236 | finds the first line feed of a range, or reports that there is none |
| Segmenter.MatchEnd | users/views.py:236 | the end of a `\n\s*\n+` match at i, computed; stated by `MatchEndSpec` |
| Segmenter.MatchEndSpec | users/views.py:236 | `\n\s*\n+` matches at i exactly when a break starts there; the match spans whitespace only, from a line feed to a line feed, and no line feed follows it in the run |
| Segmenter.SplitFrom | users/views.py:236 | the left-to-right scan of `re.split`, computed; stated by `SplitFromWords`, `SplitFromNoMatch`, `SplitFromCut`, `SplitFromShift` and `SplitFromPrefix` |
| Segmenter.RegexSplit | users/views.py:236 | `re.split(r'\n\s*\n+', text)`, computed; stated by `CutAtRun`, `SplitAtRun` and `NoBreakOneParagraph` |
| Segmenter.CleanAll | users/views.py:239-244 | the cleaning loop as a value, computed; stated by `CleanAllParagraphs`, `CleanAllAppend` and `CleanAllHead` |
| Segmenter.Paragraphs | users/views.py:233-245 | `split_into_paragraphs` as a value, computed; stated by `ParagraphBreakSplits`, `ParagraphsAreParagraphs` and `ParagraphsKeepWords` |
| Segmenter.SplitIntoParagraphs | users/views.py:233-245 | the loop returns exactly the paragraphs of the text, and each is a normalised non-empty string |
| Segmenter.CleanAllParagraphs | users/views.py:239-243 | every kept fragment is a paragraph |
| Segmenter.CleanAllAppend | users/views.py:240-243 | cleaning distributes over concatenated fragment lists |
| Segmenter.CleanAllHead | users/views.py:240-243 | the first fragment contributes its collapse, unless that is empty, ahead of the rest |
| Segmenter.FlatWordsAppend | users/views.py:240-241 | the words of fragment lists concatenate |
| Segmenter.JoinKeptStep | users/views.py:240-243 | dropping empty fragments keeps the space-joined text |
| Segmenter.FlatWordsWellFormed | users/views.py:241 | the fragments' words are well formed |
| Segmenter.JoinCleanAll | users/views.py:240-243 | the joined paragraphs equal the joined words of all fragments |
| Segmenter.SplitFromWords | users/views.py:236 | the regex split loses no word and creates none |
| Segmenter.SplitFromNoMatch | users/views.py:236 | text with no break stays one fragment |
| Segmenter.SplitFromSkip | users/views.py:236 | positions where no break starts are passed over without a cut |
| Segmenter.SplitFromCut | users/views.py:236 | a break found at i ends the current fragment at i, and scanning resumes after the match |
| Segmenter.RunEndShift | users/views.py:236 | the whitespace run after a prefix is the run of the remainder, shifted by the prefix |
| Segmenter.LastNewlineShift | users/views.py:236 | the last line feed after a prefix is that of the remainder, shifted |
| Segmenter.MatchEndShift | users/views.py:236 | a match after a prefix is the match in the remainder, shifted |
| Segmenter.SplitFromShift | users/views.py:236 | a scan that starts a fragment after a prefix splits exactly as the remainder does |
| Segmenter.SplitFromPrefix | users/views.py:236 | a prefix the scan passes over is glued to the first fragment of the remainder |
| Segmenter.CleanAllLeadingSpace | users/views.py:241 | whitespace glued to the front of the first fragment changes no paragraph |
| Segmenter.CleanTrailingSpace | users/views.py:241 | trailing whitespace does not change a collapse |
| Segmenter.MatchEndAtRun | users/views.py:236 | at the first line feed of a maximal whitespace run holding two line feeds, the match ends just after the run's last line feed |
| Segmenter.NoMatchInText | users/views.py:236 | text without a blank line, ending in a non-space, has no match inside it, whatever follows |
| Segmenter.CutAtRun | users/views.py:236 | the first blank run of a text cuts it at the run's first line feed and resumes after its last |
| Segmenter.SplitAtRun | users/views.py:236 | a blank run after break-free text ends the first fragment at the run's first line feed |
| Segmenter.SplitAfterRun | users/views.py:236 | after the run's last line feed, the rest of the run is glued to the first fragment of what follows |
| Segmenter.ParagraphBreakSplits | users/views.py:233-245 | a whitespace run holding two or more line feeds, between break-free text and text starting with a non-space, splits the text in two: the first paragraph is the collapse of the text before the run, followed by the paragraphs of the text after it |
| Segmenter.CleanAroundSpace | users/views.py:241 | two words around a whitespace run collapse to the words with one space between |
| Segmenter.ExampleTwoParagraphs | users/views.py:233-245 | (an example) "Hello   world\n\nFoo\tbar" gives ["Hello world", "Foo bar"] |
| Segmenter.ExampleFirstClean | users/views.py:241 | (an example) "Hello   world" collapses to "Hello world" |
| Segmenter.ExampleOneParagraph | users/views.py:233-245 | (an example) "Foo\tbar" is the single paragraph "Foo bar" |
| Segmenter.ExampleClean | users/views.py:241 | (an example) two words around a whitespace run collapse to "x y" |
| Segmenter.ParagraphsAreParagraphs | users/views.py:233-245 | every paragraph is non-empty and normalised |
| Segmenter.ParagraphsKeepWords | users/views.py:233-245 | the paragraphs joined by spaces are the whole text collapsed: no word is lost, added or reordered |
| Segmenter.BlankTextNoParagraphs | users/views.py:233-245 | there are no paragraphs exactly when the text is blank |
| Segmenter.LeadingRunDropped | users/views.py:236-243 | a text opening with a blank run holding two line feeds has the paragraphs of the rest alone ("\n\nfoo" gives ["foo"]) |
| Segmenter.LeadingFragments | users/views.py:236-241 | such a text splits into a whitespace fragment, then a whitespace tail glued to the rest's first fragment, then the rest's other fragments |
| Segmenter.NoBreakOneParagraph | users/views.py:236-245 | text without a blank line gives at most one paragraph, its collapse |
| Segmenter.ResegmentParagraph | users/views.py:233-245 | segmenting a paragraph again gives that paragraph alone |
| PdfText.PageContribution | documents/utils.py:8-10 | a page without text contributes nothing; otherwise its text |
| PdfText.ConcatPages | documents/utils.py:6-13 | the utility's text as a value, computed; stated by `ExtractPdfText`, `ConcatAppend`, `ConcatIsJoin` and `ConcatLength` |
| PdfText.PageTexts | users/views.py:231 | `page.extract_text() or ''` for each page, computed; stated by `ConcatIsJoin` and `Chatbot.ExtractionsDiffer` |
| PdfText.ExtractPdfText | documents/utils.py:4-13 | the loop returns the concatenation of the pages' texts |
| PdfText.ConcatAppend | documents/utils.py:6-10 | extraction distributes over page lists |
| PdfText.ConcatIsJoin | documents/utils.py:6-13 | the utility's text is the page texts joined with no separator |
| PdfText.BlankPageAddsNothing | documents/utils.py:9-12 | a page with no or empty text leaves the text unchanged |
| PdfText.NoPagesNoText | documents/utils.py:6 | a document without pages gives "" |
| PdfText.TotalLengthSnoc | documents/utils.py:10 | total length grows by the appended text |
| PdfText.ConcatLength | documents/utils.py:4-13 | the text's length is the sum of the page text lengths |
| Chatbot.ExtractText | users/views.py:229-231 | the view's extraction, computed; stated by `ExtractionsDiffer` and `ExtractTextLength` |
| Chatbot.FirstArgMax | users/views.py:223-225 | `np.argmax`: a maximal score, and the first position holding one |
| Chatbot.Question | users/views.py:205 | `data.get("question", "").strip()`: a string question is trimmed; a missing one reads as ""; the result is "" exactly for a missing or blank question; a non-string fails |
| Chatbot.ContractText | users/views.py:215 | `text_content or extract_text(...)`, computed; stated by `ContractTextSource` and `StoredTextUsed` |
| Chatbot.ContractTextSource | users/views.py:215 | stored text is used when non-empty; otherwise an unreadable PDF fails, and a readable one gives its page texts joined by line feeds |
| Chatbot.BestParagraph | users/views.py:216-225 | fails exactly when there are no paragraphs; otherwise returns the first paragraph of highest score |
| Chatbot.Post | users/views.py:204-227 | the chatbot view, computed; stated by `BlankQuestionFirst`, `MissingContract`, `StoredTextUsed`, `AnswerIsParagraph`, `AnswersRealQuestion` and `BlankContractFails` |
| Chatbot.BlankQuestionFirst | users/views.py:205-207 | a missing or blank question gives 400 before the contract is looked up |
| Chatbot.MissingContract | users/views.py:209-212 | a user without a contract gives 404 |
| Chatbot.StoredTextUsed | users/views.py:215 | when text is stored, the PDF does not affect the answer |
| Chatbot.AnswerIsParagraph | users/views.py:216-227 | the answer is one of the contract's paragraphs, normalised; no paragraph scores higher for the question, and every earlier paragraph scores strictly lower |
| Chatbot.AnswersRealQuestion | users/views.py:204-227 | a non-blank string question from a user with a contract whose text is readable and not blank is answered with 200 |
| Chatbot.BlankContractFails | users/views.py:216-224 | a blank contract text gives 500 (no paragraphs to score: the similarity call raises before argmax) |
| Chatbot.ExtractTextLength | users/views.py:229-231 | the view's extracted text has one line feed between pages |
| Chatbot.ExtractionsDiffer | users/views.py:229-231 | the view joins the page texts with line feeds, the utility with nothing, so the view's text is longer by one character per page gap |
| Models.ParseTariffType | users/models.py:13-20 | only the two choice values parse |
| Models.TypeValueRoundTrip | users/models.py:13-20 | a type's stored value parses back to that type |
| Models.ParseTariffTypeRoundTrip | users/models.py:13-20 | a parsed value prints back to itself |
| Models.TariffLabel | users/models.py:29-30 | `Tariff.__str__`, computed; stated by `LabelShowsType` and `LabelFrame` |
| Models.LabelShowsType | users/models.py:29-30 | two tariffs of the same name and company have the same label exactly when their types agree |
| Models.LabelFrame | users/models.py:29-30 | the label begins with the name and " (", ends with the type value and ")", has the company name and ", " right after the opening, and has five characters besides the name, company name and type |
| Models.Schema | users/models.py:5-74 | the schema's constraints as a predicate; kept by `DeleteTariffsKeepsSchema`, `DeleteCompaniesKeepsSchema`, `DeleteUserKeepsSchema` and `Store.Database.Valid` |
| Models.WithoutTariffs | users/models.py:21-27 | deleting tariff rows with their link rows, computed; stated by `DeleteTariffsKeepsSchema` |
| Models.ReleaseTariffs | users/models.py:57-58 | SET_NULL of the users' tariff, computed; stated by `DeleteTariffsKeepsSchema` |
| Models.DeleteTariffsKeepsSchema | users/models.py:21-27 | deleting tariffs, with their link rows and with SET_NULL on users, keeps the schema |
| Models.DeleteCompaniesKeepsSchema | users/models.py:19 | deleting companies cascades to their tariffs, sets the users' references to null, and keeps the schema |
| Models.DeleteUserKeepsSchema | users/models.py:67-72 | deleting a user cascades to the contract and keeps the schema |
| Models.AddOnLinkNotSymmetric | users/models.py:21-27 | (an example) a valid state can link A to B without linking B to A |
| Store.Database.constructor | users/models.py:5-74 | empty tables satisfy the schema |
| Store.Database.GetOrCreateCompany | users/management/commands/import_insurance_data.py:27 | `get_or_create` by name: returns the existing row, or adds exactly one new row when none exists |
| Store.Database.GetOrCreateTariff | users/management/commands/import_insurance_data.py:37-41 | `get_or_create` by (name, company, type): creates a row exactly when none has that key |
| Store.Database.SetTariffAddOns | users/management/commands/import_insurance_data.py:57-58 | `additional_tariffs.set`: replaces one tariff's links and changes nothing else |
| Store.Database.CreateUser | users/serializers.py:45-55 | adds one user row under a new key |
| Store.Database.SaveUser | users/serializers.py:58-59 | overwrites one user row and keeps the schema |
| Store.Database.DeleteTariffs | users/models.py:57-58 | the tariff delete rules applied to the tables |
| Store.Database.DeleteCompanies | users/models.py:19 | the company delete rules applied to the tables |
| CatalogImport.Imported | pkv_backend/import_insurance_data.py:11-46 | the state an import leaves, as a predicate; established by `ImportCatalog` and kept by `ImportStepImported` |
| CatalogImport.EntryAddOnNames | users/management/commands/import_insurance_data.py:34-35 | every add-on of an entry is among the company's add-on names |
| CatalogImport.LastAddOnsListed | users/management/commands/import_insurance_data.py:45-57 | a main tariff has final links exactly when it is listed; they name listed add-ons |
| CatalogImport.LastLinksListed | users/management/commands/import_insurance_data.py:26-57 | a main tariff listed under some company has final links |
| CatalogImport.LastLinksNamed | users/management/commands/import_insurance_data.py:26-57 | final links come from an entry of that company |
| CatalogImport.AddOnIdsStable | users/management/commands/import_insurance_data.py:33-42 | the add-ons a name list denotes are unchanged by later creations |
| CatalogImport.MainLinkedStable | users/management/commands/import_insurance_data.py:44-58 | a main tariff's links survive steps that do not touch it |
| CatalogImport.CreateNamedAddOns | users/management/commands/import_insurance_data.py:35-42 | each listed add-on exists and is cached by name; new rows are only listed add-ons; no row is created when all exist |
| CatalogImport.FetchAddOn | users/management/commands/import_insurance_data.py:37-42 | one add-on's get_or_create: its name joins the map, older rows are untouched, and nothing is created when the row exists |
| CatalogImport.ElemsStep | users/management/commands/import_insurance_data.py:35 | the names handled so far grow by one listed name per iteration |
| CatalogImport.CreateAddOns | users/management/commands/import_insurance_data.py:33-42 | phase 1: the cache holds exactly the add-on names of the company, each mapped to its row |
| CatalogImport.LinkedIdsExact | users/management/commands/import_insurance_data.py:52-56 | the cached ids of an entry's add-ons are exactly the company's add-on rows with those names |
| CatalogImport.LinkMain | users/management/commands/import_insurance_data.py:46-58 | the main tariff exists and links exactly its entry's add-ons; no other row changes |
| CatalogImport.RelinkFacts | users/management/commands/import_insurance_data.py:46-58 | after get_or_create and `set()`, the main row links exactly the named add-ons of its company, keys stay, only that row changes or is new |
| CatalogImport.AddOnStep | users/management/commands/import_insurance_data.py:37-42 | one add-on get_or_create keeps older rows untouched, and every new row is an add-on of the company with a name already handled |
| CatalogImport.Phase2Step | users/management/commands/import_insurance_data.py:45-58 | one main-tariff step keeps the phase-2 invariant |
| CatalogImport.LinkMains | users/management/commands/import_insurance_data.py:44-58 | phase 2: each main tariff links the add-ons of its last entry; rows not named are untouched |
| CatalogImport.ImportCompany | users/management/commands/import_insurance_data.py:26-58 | one company: the company exists, its add-ons exist, its main tariffs are linked, and only its tariffs change |
| CatalogImport.ImportStepImported | pkv_backend/import_insurance_data.py:11-46 | importing one more company extends the imported state |
| CatalogImport.ImportStepFrame | pkv_backend/import_insurance_data.py:11-46 | rows neither named nor relinked stay as they were |
| CatalogImport.ImportLoopStep | pkv_backend/import_insurance_data.py:11-46 | one company step keeps the loop invariant |
| CatalogImport.RerunUnchanged | pkv_backend/import_insurance_data.py:11-46 | re-importing data that is already imported changes no row |
| CatalogImport.RerunFindsEntry | pkv_backend/import_insurance_data.py:13-37 | after an import, each company of the data is found again on a rerun |
| CatalogImport.ImportCatalog | pkv_backend/import_insurance_data.py:11-50 | every company and add-on exists, and every main tariff links its last entry's add-ons; other rows are kept; users untouched; a second run changes nothing |
| CatalogImport.ClearCatalog | users/management/commands/import_insurance_data.py:16-19 | `--clear` empties both tables; users keep their rows with the catalog references set to null |
| CatalogImport.ClearDetachesUsers | users/management/commands/import_insurance_data.py:18-19 | the two cascading deletes keep every user and clear exactly its company, tariff and add-on references |
| CatalogImport.Handle | users/management/commands/import_insurance_data.py:15-64 | the command: after `--clear` only the data's rows exist; without it, existing companies and users are kept and a rerun changes nothing |
| JsonData.Field | voiceflow/services/payloads.py:21-22 | whether a request field is present and with what value, computed; stated by `GetOrIsField` |
| JsonData.GetOrElse | voiceflow/services/trace_parser.py:3-4 | `d.get(k) or default`, computed; stated by `OrDefault` |
| JsonData.GetOrIsField | voiceflow/services/payloads.py:13-18 | `d.get(k, default)` is the present value, whatever it is, and the default only for a missing key; `d.get(k)` is `d.get(k, None)` |
| JsonData.OrDefault | voiceflow/services/trace_parser.py:3-4 | `d.get(k) or default` is truthy or is the default; it is `d.get(k, default)` unless the key holds a falsy value, which gives the default |
| DrfFields.IntToString | voiceflow/views.py:41 | `str(n)`, computed; stated by `IntToStringShape` and `ParseIntToString` |
| DrfFields.NatDigits | voiceflow/views.py:41 | the decimal digits of a natural number: non-empty, a single digit exactly below 10, and no leading zero |
| DrfFields.ParseInt | users/views.py:83-85 | `int()` on text succeeds exactly when, after trimming and an optional sign, only ASCII digits remain; the value is those digits' value, negated after '-' |
| DrfFields.ParseIntIgnoresSpace | users/views.py:83-85 | surrounding whitespace does not change `int()` |
| DrfFields.LeadingZeroIgnored | users/views.py:83-85 | a leading zero does not change the value of a digit string |
| DrfFields.ParseIntDigits | users/views.py:83-85 | a digit string reads as its value |
| DrfFields.ParseIntSign | users/views.py:83-85 | '-' before digits negates their value and '+' keeps it |
| DrfFields.DigitsValueOfNat | users/views.py:83-85 | decimal digits read back to the number |
| DrfFields.IntToStringShape | voiceflow/views.py:41 | `str(n)` is non-empty and trimmed, made of digits after an optional leading '-', with no '.' and no NUL |
| DrfFields.ParseIntToString | users/views.py:83-85 | `int(str(n)) == n` for every integer |
| DrfFields.TrailingZeros | voiceflow/serializers.py:5 | counts the trailing zeros exactly |
| DrfFields.DropDecimalZeros | voiceflow/serializers.py:5 | only a `.000` tail is removed |
| DrfFields.CharField | users/serializers.py:150-151 | missing gives Required, null gives Null, booleans, lists and objects are Invalid; a string is accepted exactly when it is not blank, holds no NUL and fits `max_length` once trimmed, and the accepted value is the trimmed string; a blank string is Blank; a failing non-blank string reports every failing validator; an integer within the limit is accepted as `str(n)` |
| DrfFields.Validated | voiceflow/serializers.py:4 | the validators on the trimmed value: accepted unchanged exactly when none fails; otherwise all failures are reported |
| DrfFields.CharFieldReportsAll | voiceflow/serializers.py:4 | a value that is too long and holds NUL reports both errors, in validator order |
| DrfFields.ToInteger | users/serializers.py:248-249 | a JSON integer is accepted as is; booleans, lists and objects are invalid |
| DrfFields.IntegerField | voiceflow/serializers.py:5 | accepted exactly when the coerced value is within bounds; null gives Null |
| DrfFields.IntegerItems | users/serializers.py:250-251 | a list is accepted exactly when every item is, and the values match item by item |
| DrfFields.IntegerListField | users/serializers.py:250-253 | null gives Null and any other non-list not_a_list; a list is accepted exactly when every item is, with the values item by item; otherwise the child errors |
| DrfFields.NumeralReadsAsInt | users/serializers.py:248-249 | the numeral of any integer is accepted as that integer |
| DrfFields.ReadsAs | users/serializers.py:248-249 | a string that parses to n once a `.0` tail is dropped is accepted as n |
| DrfFields.NumeralHasNoDecimalTail | voiceflow/serializers.py:5 | the numeral of an integer has no decimal tail to drop |
| DrfFields.DecimalTailIgnored | users/serializers.py:248-249 | "n.0" is accepted as n |
| DrfFields.CutDecimalTail | voiceflow/serializers.py:5 | a ".0" tail is dropped |
| DrfFields.NoDecimalTail | voiceflow/serializers.py:5 | text without '.' that ends in a non-space is kept as is |
| Mappings.Lookup | voiceflow/services/mappings.py:17-29 | `table.get(name, name)`, computed; stated by `LookupOwnEntry` and `LookupUnchanged` |
| Mappings.CompanyCode | voiceflow/services/mappings.py:17-19 | `get_company_code`, computed; stated by `GettersIndependent` |
| Mappings.TariffGroup | voiceflow/services/mappings.py:22-24 | `get_tariff_group`, computed; stated by `GettersIndependent` |
| Mappings.AdditionalTariffGroup | voiceflow/services/mappings.py:27-29 | `get_additional_tariff_group`, computed; stated by `GettersIndependent` |
| Mappings.GettersIndependent | voiceflow/services/mappings.py:12-29 | each getter reads only its own table |
| Mappings.LookupOwnEntry | voiceflow/services/mappings.py:17-29 | a name's mapping depends only on its own entry, and that entry is its mapping |
| Mappings.LookupUnchanged | voiceflow/services/mappings.py:17-29 | a name maps to itself exactly when it has no entry or its entry is itself; with an empty table every name maps to itself |
| KbFilters.GetKey | voiceflow/services/kb_filters.py:8-12 | "" for no object; otherwise the code when truthy, else the slug when truthy, else the name, trimmed only after that choice; a missing name gives ""; fails exactly when the name is None |
| KbFilters.Groups | voiceflow/services/kb_filters.py:19 | at most one group per related row |
| KbFilters.AdditionalGroups | voiceflow/services/kb_filters.py:15-19 | no manager gives no groups; otherwise defined exactly when every related record has a key, with at most one group per record (values and order: `GroupsOfOne`, `GroupsAppend`) |
| KbFilters.BuildVariables | voiceflow/services/kb_filters.py:22-37 | defined exactly when every key is; three variables holding the mapped company, the mapped tariff, and the add-on groups joined by ", " |
| KbFilters.BlankCodeDoesNotFallThrough | voiceflow/services/kb_filters.py:12 | a blank code is truthy, so the slug is never consulted |
| KbFilters.GroupsDefined | voiceflow/services/kb_filters.py:19 | the groups are defined exactly when every row has a key |
| KbFilters.GroupsSnoc | voiceflow/services/kb_filters.py:19 | one more row adds its group, or nothing for an empty key |
| KbFilters.GroupsAppend | voiceflow/services/kb_filters.py:19 | groups of concatenated rows concatenate |
| KbFilters.GroupsOfOne | voiceflow/services/kb_filters.py:19 | a single row gives its group, or none for an empty key |
| KbFilters.MissingRecordsMapEmpty | voiceflow/services/kb_filters.py:29-37 | a profile with no company, tariff or add-ons maps the empty keys |
| KbFilters.ProfileOf | voiceflow/services/kb_filters.py:29-31 | for an order that lists each related tariff exactly once, one add-on record per related tariff, the k-th carrying the name of the k-th tariff in that order |
| KbFilters.ListedOnceCount | voiceflow/services/kb_filters.py:15-19 | a related-manager order that lists each add-on once is as long as the add-on set |
| KbFilters.CatalogVariablesDefined | voiceflow/services/kb_filters.py:22-37 | for a schema-valid user the variables are defined, from the trimmed company and tariff names |
| TraceParser.ObjectOr | voiceflow/services/trace_parser.py:3 | `d.get(k) or {}`: falsy gives {}; otherwise the object itself |
| TraceParser.ListOr | voiceflow/services/trace_parser.py:4 | `d.get(k) or []`: falsy gives []; otherwise the list itself |
| TraceParser.ChildTexts | voiceflow/services/trace_parser.py:5 | succeeds exactly when every child is an object whose truthy text is a string; the texts are non-empty, at most one per child (which, in what order: `ChildTextsOfOne`, `ChildTextsAppend`) |
| TraceParser.ChildTextsOfOne | voiceflow/services/trace_parser.py:5 | a child contributes its text exactly when that text is truthy |
| TraceParser.ChildTextsAppend | voiceflow/services/trace_parser.py:5 | the texts of consecutive children concatenate, in child order |
| TraceParser.BlockTexts | voiceflow/services/trace_parser.py:5 | succeeds exactly when every block is an object whose children can all be read; the texts are non-empty |
| TraceParser.BlockTextsOfOne | voiceflow/services/trace_parser.py:5 | a block contributes the texts of its children |
| TraceParser.BlockTextsAppend | voiceflow/services/trace_parser.py:5 | the texts of consecutive blocks concatenate, in block order |
| TraceParser.SlateParts | voiceflow/services/trace_parser.py:3-5 | `parts`: no slate gives none, and every part is non-empty |
| TraceParser.SlateText | voiceflow/services/trace_parser.py:2-6 | `"\n".join(parts).strip() or None`: defined exactly when the parts are; None exactly when the joined parts are blank, and for no parts; otherwise the joined parts stripped, which is non-empty and trimmed |
| TraceParser.MessageText | voiceflow/services/trace_parser.py:8-9 | `payload.get("message")`, computed; stated by `SlateBeforeMessage` and `MessageOnlyWithoutSlate` |
| TraceParser.ExtractText | voiceflow/services/trace_parser.py:11-12 | `_slate_text(p) or _message_text(p)`, computed; stated by `SlateBeforeMessage` and `MessageOnlyWithoutSlate` |
| TraceParser.MessageOnlyWithoutSlate | voiceflow/services/trace_parser.py:11-12 | the message field is the text exactly when the slate yields none; otherwise changing the message changes nothing |
| TraceParser.Extension | voiceflow/services/trace_parser.py:29 | `list.extend`: a list adds its items, a string its characters, computed; stated by `ButtonsExtension` |
| TraceParser.ButtonsExtension | voiceflow/services/trace_parser.py:14-29 | for a choice trace with truthy buttons: a list gives its items, a string one button per character in order, any other value fails |
| TraceParser.ExtractButtons | voiceflow/services/trace_parser.py:14-17 | non-choice traces give no buttons; for a choice, an unreadable payload fails, falsy buttons give [], a list of buttons gives exactly that list, and other truthy buttons give their extension |
| TraceParser.ExtractVoice | voiceflow/services/trace_parser.py:19-20 | `payload.get("voice")`, computed; stated by `AudioIsFirstTruthy` |
| TraceParser.TraceStep | voiceflow/services/trace_parser.py:24-30 | one iteration of the loop, computed; stated by `TraceStepParts` and `MissingPayloadIsEmpty` |
| TraceParser.TraceStepParts | voiceflow/services/trace_parser.py:24-30 | a non-object trace fails; otherwise the step succeeds exactly when the payload, the text and the buttons can be read, and then holds that text, those buttons and the payload's voice |
| TraceParser.Steps | voiceflow/services/trace_parser.py:24-30 | one step per trace |
| TraceParser.Voices | voiceflow/services/trace_parser.py:30 | the voices in trace order, computed; stated through `FirstTruthy` by `AudioIsFirstTruthy` and `AudioFalsy` |
| TraceParser.MessagesOf | voiceflow/services/trace_parser.py:27-28 | the truthy texts, computed; stated by `MessagesShape`, `OutputsAppend` and `OutputsOfOne` |
| TraceParser.ChoicesOf | voiceflow/services/trace_parser.py:29 | the extended buttons, computed; stated by `OutputsAppend` and `OutputsOfOne` |
| TraceParser.FirstTruthy | voiceflow/services/trace_parser.py:30 | `audio = audio or voice` folded, computed; stated by `FirstTruthySnoc`, `AudioIsFirstTruthy` and `AudioFalsy` |
| TraceParser.ParseItems | voiceflow/services/trace_parser.py:22-31 | the fold over the items, computed; stated by `ParseTraces` |
| TraceParser.ParseTraceList | voiceflow/services/trace_parser.py:22-31 | `parse_traces` as a value, computed; stated by `ParseTraces` and `VoiceflowViews.FlowMessagesTruthy` |
| TraceParser.TraceItems | voiceflow/services/trace_parser.py:24 | a list gives its items |
| TraceParser.FirstTruthySnoc | voiceflow/services/trace_parser.py:30 | `audio or voice` keeps the first truthy voice |
| TraceParser.StepsSnoc | voiceflow/services/trace_parser.py:24-30 | one more trace: the first failure persists, else its step is appended |
| TraceParser.ParseStep | voiceflow/services/trace_parser.py:26-30 | one iteration appends a truthy text, extends the choices and keeps the first truthy audio |
| TraceParser.ParseFails | voiceflow/services/trace_parser.py:24-30 | a failing trace makes the whole parse fail with its error |
| TraceParser.ParseTraces | voiceflow/services/trace_parser.py:22-31 | the loop returns exactly the fold of the traces, failure included |
| TraceParser.ParseItemList | voiceflow/services/trace_parser.py:23-31 | for any per-item step, the accumulating loop equals the fold of the steps, the first failing item included |
| TraceParser.StepsFailurePersists | voiceflow/services/trace_parser.py:24-30 | a failure in a prefix is the failure of the whole list |
| TraceParser.MessagesShape | voiceflow/services/trace_parser.py:27-28 | at most one message per trace, each truthy |
| TraceParser.OutputsAppend | voiceflow/services/trace_parser.py:24-29 | messages and choices of concatenated traces concatenate |
| TraceParser.OutputsOfOne | voiceflow/services/trace_parser.py:26-29 | one trace gives its truthy text and its buttons |
| TraceParser.AudioIsFirstTruthy | voiceflow/services/trace_parser.py:30 | audio is the first truthy voice |
| TraceParser.AudioFalsy | voiceflow/services/trace_parser.py:30 | audio is falsy exactly when every voice is |
| TraceParser.MissingPayloadIsEmpty | voiceflow/services/trace_parser.py:25 | a missing or falsy payload reads as {} |
| TraceParser.SlateBeforeMessage | voiceflow/services/trace_parser.py:11-12 | slate text takes priority over the message |
| TraceParser.SlateJoinsChildren | voiceflow/services/trace_parser.py:2-6 | (an example) child texts of two blocks, an empty one skipped, joined to "Hallo\nWelt" |
| TraceParser.ExampleChildTexts | voiceflow/services/trace_parser.py:5 | (an example) an empty child text is dropped |
| TraceParser.ExampleBlockTexts | voiceflow/services/trace_parser.py:5 | (an example) texts are collected across blocks in order |
| Payloads.TextRequest | voiceflow/services/payloads.py:17-18 | the text request, computed; stated by `TextSendsMessage` and `OtherTypePassesRequest` |
| Payloads.InteractPayload | voiceflow/services/payloads.py:7-23 | the payload always has exactly the key "request" |
| Payloads.MissingTypeIsText | voiceflow/services/payloads.py:13 | a missing type behaves as "text" |
| Payloads.LaunchIgnoresRest | voiceflow/services/payloads.py:15-16 | a launch request ignores every other field |
| Payloads.TextSendsMessage | voiceflow/services/payloads.py:17-18 | a text request carries the message, or "" |
| Payloads.ChoicePassesRequest | voiceflow/services/payloads.py:19-20 | a choice passes its request through, or {} |
| Payloads.OtherTypePassesRequest | voiceflow/services/payloads.py:21-23 | other types pass a present request through, else send the message as text |
| Payloads.NullTypeIsNotMissing | voiceflow/services/payloads.py:13-23 | an explicit null type is not the "text" default |
| VoiceflowViews.FlowResponse | voiceflow/views.py:22-27 | the answer always holds a message: the parsed messages when there are any, else exactly the single fallback message; choices and audio are passed through |
| VoiceflowViews.HandleInteraction | voiceflow/views.py:62-70 | never an uncaught error: a 200 exactly when the interaction replied and its traces parsed, and then it is the flow response of the parsed traces; otherwise 502 with the exception's or the parse failure's message |
| VoiceflowViews.ParsedReplyAnswered | voiceflow/views.py:22-70 | at the endpoint, a reply whose traces parse gives 200 with the parsed choices and audio unchanged and the parsed messages, or the single fallback message when there are none |
| VoiceflowViews.SetUserVariables | voiceflow/views.py:53-60 | at most one call, for this user, made exactly when the variables can be built; a failure sends nothing and is swallowed |
| VoiceflowViews.Post | voiceflow/views.py:39-51 | the endpoint, computed; stated by `InteractionLast`, `ResetFirst`, `VariablesSentIff` and `ResponseIsInteraction` |
| VoiceflowViews.PostEffects | voiceflow/views.py:44-51 | the calls in order, computed; stated by `EffectsEndInInteraction` and `EffectsSetVariablesIff` |
| VoiceflowViews.FlowMessagesTruthy | voiceflow/views.py:22-27 | a 200 answer holds at least one message, and every message is truthy |
| VoiceflowViews.CountInteractAppend | voiceflow/views.py:39-51 | interaction counts add up |
| VoiceflowViews.InteractionLast | voiceflow/views.py:39-51 | exactly one interaction, and it comes last, with the built payload |
| VoiceflowViews.EffectsEndInInteraction | voiceflow/views.py:44-51 | whatever reset and variables go first, one interaction is sent and it is the last call |
| VoiceflowViews.ResetFirst | voiceflow/views.py:44-45 | the first effect is a reset exactly when `reset` is truthy |
| VoiceflowViews.VariablesSentIff | voiceflow/views.py:48-49 | variables are sent exactly on launch or reset, when they can be built |
| VoiceflowViews.EffectsSetVariablesIff | voiceflow/views.py:44-49 | in the call sequence, a set-variables call occurs exactly when launch or reset asks for it and building succeeds |
| VoiceflowViews.ResponseIsInteraction | voiceflow/views.py:51 | the response is that of the interaction alone |
| VoiceflowViews.EmptyReplyFallsBack | voiceflow/views.py:25-26 | no traces give the fallback message, no choices and no audio |
| VoiceflowSerializers.ChunkLimit | voiceflow/serializers.py:5 | default 6; an accepted value lies in 1..20 |
| VoiceflowSerializers.ValidateKbChat | voiceflow/serializers.py:3-5 | a null body gives "No data provided" and another non-object body invalid; a missing message is Required; a string message that is blank, holds NUL or is over 4000 once trimmed is refused, and an acceptable one is accepted as the trimmed string, with chunk_limit 6 when absent or the given integer in 1..20; any accepted chunk_limit lies in 1..20 |
| VoiceflowSerializers.ChunkLimitBounds | voiceflow/serializers.py:5 | below 1 gives MinValue(1); above 20 gives MaxValue(20) |
| VoiceflowSerializers.ChunkLimitFromString | voiceflow/serializers.py:5 | the numeral of any integer is read as that integer |
| UserSerializers.NewUser | users/serializers.py:44-58 | defined exactly when both names are given; the new user is inactive, has no insurance, insurance number or fee, and stores the given username, email, password, names, phone, street, postal code and city |
| UserSerializers.Register | users/serializers.py:44-60 | adds exactly the new inactive user under a fresh id, or nothing when a name is missing |
| UserSerializers.LoginValidate | users/serializers.py:98-102 | `authenticate` then the active check, computed; stated by `RegisteredNeedsActivation` and `UserViews.VerifiedUserCanLogIn` |
| UserSerializers.RegisteredNeedsActivation | users/serializers.py:58-102 | a registered user cannot log in until activated, and can after |
| UserSerializers.ValidatePasswordChange | users/serializers.py:146-151 | a null body gives "No data provided" and another non-object body invalid; a missing field is Required; a string field that is blank or holds NUL is refused under its key; two acceptable strings are accepted trimmed; accepted values are non-empty and trimmed |
| UserSerializers.ChangePasswordOf | users/serializers.py:161-180 | invalid input gives 400; the wrong current password gives 400 and no change; otherwise the new password is stored |
| UserSerializers.OldPasswordRetired | users/serializers.py:168-175 | after a change the old password no longer matches |
| UserSerializers.ChangePassword | users/serializers.py:161-180 | saves exactly the outcome's user |
| UserSerializers.AdditionalTariffs | users/serializers.py:220-226 | a main tariff lists exactly its linked add-ons; other tariffs list none |
| UserSerializers.SerializeTariff | users/serializers.py:209-226 | id and name of the tariff; a main tariff lists exactly its linked add-ons with their names, other tariffs none |
| UserSerializers.MainTariffs | users/serializers.py:239-241 | exactly the company's main tariffs, serialized |
| UserSerializers.SerializeCompany | users/serializers.py:229-241 | the company serializer, computed; stated by `CompanyListsMainTariffs` |
| UserSerializers.CompanyListsMainTariffs | users/serializers.py:229-241 | id and name of the company; a tariff is listed exactly when it is a main tariff of the company, and each entry is that tariff serialized |
| UserSerializers.AddOnsListedOnlyUnderMain | users/serializers.py:220-226 | (an example) an add-on's own links are hidden |
| UserSerializers.SerializedProfileCompleted | users/serializers.py:105-126 | the sent flag, computed; stated by `SentFlagIgnoresFields` and `ProfileFlagNotComputed` |
| UserSerializers.SentFlagIgnoresFields | users/serializers.py:125-143 | the sent flag depends on the stored column alone: users with equal columns send equal flags, and flipping the column flips the flag |
| UserSerializers.ProfileFlagNotComputed | users/serializers.py:128-143 | (an example) the flag can disagree with the completeness check in both directions |
| UserSerializers.RequiredInteger | users/serializers.py:248-249 | a required IntegerField, computed; stated by `ValidateSelection` and `SameSelectionInputs` |
| UserSerializers.OptionalIntegerList | users/serializers.py:250-253 | a missing list is accepted as absent |
| UserSerializers.ValidateSelection | users/serializers.py:244-253 | a null body gives "No data provided" and another non-object body invalid; an accepted selection holds the integer values of company and tariff and the add-on list exactly when one is sent; input whose fields are all acceptable is accepted; a missing company or tariff is Required; a bad add-on list reports its error |
| UserSerializers.SelectionFromNumerals | users/serializers.py:248-249 | a company or tariff sent as the numeral of n validates exactly as n |
| UserSerializers.SameSelectionInputs | users/serializers.py:244-253 | the outcome depends only on the results of the three fields |
| UserSerializers.NullAddOnsRefused | users/serializers.py:250-253 | an explicit null add-on list is refused with Null rather than taken as absent |
| UserViews.VerifyOutcome | users/views.py:80-95 | no decodable uid gives 500; an unknown or non-numeric id gives 400 "Ungültiger Link"; a known id with an invalid token gives 400 "ungültig oder abgelaufen"; activation happens exactly for a known id with a valid token |
| UserViews.VerifyEmail | users/views.py:80-95 | activates exactly the user named by the link and changes nothing else |
| UserViews.VerifiedUserCanLogIn | users/views.py:90-93 | a valid link for an existing user activates them, and they can then log in |
| UserViews.SelectedAddOns | users/views.py:299 | exactly the listed ids that are tariffs of the company |
| UserViews.SelectInsuranceOf | users/views.py:280-314 | invalid input gives 400; an unknown company gives 404, and so does a tariff that is missing or belongs to another company; otherwise saves company, tariff, that company's listed add-ons and the completed flag, and echoes their names |
| UserViews.SelectionKeepsReferences | users/views.py:290-307 | the saved user has no dangling references, and its add-ons belong to its company |
| UserViews.SelectionIgnoresTypes | users/views.py:291-305 | an add-on can be saved as the main tariff and a main tariff as an add-on |
| UserViews.SelectInsurance | users/views.py:280-314 | saves exactly the outcome's user |
| UserViews.TariffList | users/views.py:256-264 | fails exactly for a non-empty non-numeric company; otherwise the tariffs matching each non-empty filter |
| UserViews.TariffListEdges | users/views.py:260-263 | empty filters select everything; an unknown type selects nothing |
| UserViews.FormatCents | users/serializers.py:298-303 | a fee prints with two decimals after a '.', and its whole part, after a '-' for a negative fee, is digits with no leading zero |
| UserViews.FormatCentsValue | users/serializers.py:298-303 | the printed digits denote the amount, and the sign is kept |
| UserViews.MyTariff | users/views.py:319-327 | empty exactly when the company or tariff is unset; otherwise their names, the names of the add-ons, the insurance number, and the monthly fee printed by `FormatCents` (None when unset) |
| UserViews.SelectionShownAsMyTariff | users/views.py:309-327 | after a selection, "my tariff" shows the names the selection returned |

## Left out

- Sentence embeddings and cosine similarity are left out. The score is a function parameter, and floating point is modelled as `real`.
- pdfplumber is left out; the pages and their optional text are inputs. The "no text on page" message printed by `documents/utils.py` is left out.
- Email sending is left out: the verification mail, the contact-form mail and the password-reset mail.
- The Voiceflow HTTP client is left out. The agent's reply or exception is an input, and the result of `vf_reset` is ignored as in the code.
- Reading the mapping file and the import's JSON file is left out. The parsed tables and entries are inputs.
- Token generation and checking are left out; the token's validity is an input.
- Password hashing is left out. A stored password is the secret itself, and `check_password` is equality.
- `authenticate` is left out; its result is an input to `LoginValidate`.
- Base64 decoding of the verification uid is left out. The decoded uid is an `Option<string>`, where None means it could not be decoded.
- These endpoints are not part of this model: the contact messages, the token and user payload of the login response, the user detail view, password reset, the `PUT` of "my tariff", the profile completion view, logout, contract upload, URL routing and the admin.
- Store.Database.GetOrCreateCompany: does not model `MultipleObjectsReturned`. Instead a unique-name catalog (`UniqueCatalog`) is required and maintained.
- Store.Database.GetOrCreateTariff: does not model `MultipleObjectsReturned`, for the same reason.
- CatalogImport.ImportCatalog: does not model a `KeyError` on an entry without "name". Entries are typed, and missing lists read as [].
- UserSerializers.NewUser: `create_user` stores `normalize_username(username)` (the NFKC form) and `normalize_email(email)` (the domain part lower-cased); the model stores both exactly as given, because Unicode normalisation is not modelled. For a username such as "ﬁle" the program stores "file" and the model "ﬁle".
- UserSerializers.Register: requires a free username and email (`Unclaimed`) instead of modelling the serializer's uniqueness and field validators. `Unclaimed` compares the raw values, not the normalised ones `create_user` stores, so the IntegrityError (500) that two distinct raw usernames with the same NFKC form cause is not modelled; the stored username and email are not normalised, as for `NewUser`.
- `limit_choices_to` on the add-on link is not enforced by the database, and it is not modelled as a constraint.
- UserViews.SelectInsuranceOf: the echoed add-on names are a set, so the response order and duplicate names are left out.
- UserViews.MyTariff: the add-on names are a set, so the order in which the serializer lists them and duplicate names are left out.
- UserSerializers.AdditionalTariffs: the add-ons are a set, so the order of `obj.additional_tariffs.all()` (a query without ORDER BY) is left out; the link rows are unique, so no add-on is listed twice.
- UserSerializers.SerializeTariff: its add-on list is that set, with the same omission.
- DrfFields.CharField: `ProhibitSurrogateCharactersValidator` is not modelled as a check, because a Dafny `char` is never a surrogate code point; an unpaired surrogate in the request JSON is therefore not representable.
- UserViews.TariffList: the result is a set of ids, so queryset order is left out.
- UserSerializers.MainTariffs: the serialized list is a set, so its order is left out.
- DrfFields.ParseInt: does not accept underscores or non-ASCII digits, which Python's `int()` does.
- JSON numbers with a fraction are left out. `JsonData.Json` has integers only.
- TraceParser.Extension: `list.extend` with a non-empty dictionary would add its keys; the model treats it as a failure.
- Exception messages are abstract strings rather than Python's exact texts.
- Logging and console output are left out.
- `documents/views.py` is not part of this model.
- The password-reset link sends the raw primary key where base64 is decoded. That endpoint is not part of this model.
