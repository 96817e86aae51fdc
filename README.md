# Multilingual video-script generator: verified model of the data and translation core

The application edits multilingual video-production scripts. A user keeps
several named projects ("shooting plans"). Each project is an ordered list
of scenes. A scene has an integer id, an optional reference-image name and
three text blocks: `outline`, `visual` and `dialogue`. Each block holds one
text for each of Chinese (`zh`), English (`en`) and Indonesian (`id`).

The core of the application is the one-click translation of a scene. For
each block it picks a source language by priority: the user's base
language first, then `zh`, `en`, `id`. It then fills only the blank
languages through an external translator and never overwrites a language
that already holds text. The rows of the CSV export are built from the
same data.

This project models that core in Dafny and proves its properties:

- `strings.dfy` (module `Strings`) models Python's `str.strip()` with the
  white-space set of `str.isspace()`.
- `scenes.dfy` (module `Scenes`) holds languages, fields, blocks and the
  `Scene` class. The scene's id is a `const` and its texts are fields
  edited in place.
- `project_store.dfy` (module `ProjectStore`) holds the `Project` class
  (scene list and id counter) and the `Store` class (the map from name to
  project, with the current name). It also holds the create, add, move and
  delete operations.
- `translation.dfy` (module `Translation`) holds `translate_text`,
  `translate_block` and `translate_scene`. `translate_block` and
  `translate_scene` are imperative methods proved against the
  specification function `TranslatedBlock`.
- `translation_properties.dfy` (module `TranslationProperties`) holds the
  lemmas about `TranslatedBlock`: source selection, no overwriting, filling
  of blank slots, completeness, idempotence and warnings.
- `export.dfy` (module `Export`) holds the row-building loop of the CSV
  export.
- `preview.dfy` (module `Preview`) holds the outline preview shown beside
  each scene.

The external translator is a parameter of type `(string, Lang, Lang) ->
TranslatorReply`. It yields either `Translated(text)` or `ProviderError`.

`Block.Get`, `Scene.Texts`, `Scene.Text` (the `get_text` lookup,
app.py:322-323) and `Store.Current` (`projects[current_project_name]`,
app.py:82-83) are plain accessors; they state nothing of their own and
have no row in the table below.

Points where the model makes the code's behaviour explicit:

- Creating a project with a blank or existing name silently does nothing.
  The model also changes nothing, and it returns which guard applied
  (`EmptyName` or `DuplicateName`).
- Move has only the boundary guards `idx > 0` (app.py:223) and
  `idx < len(scenes) - 1` (app.py:229), and delete has none. Outside the
  UI, move up with `idx >= len(scenes)` and `pop` with such an index would
  raise `IndexError`, and a negative index would wrap around in move
  down's swap and in `pop`. The UI passes only indices from
  `enumerate(scenes)`, so the model requires `idx < |scenes|`.
- The priority order `[base_lang, "zh", "en", "id"]` is not deduplicated in
  the code. Taking the first match makes that harmless, and the model keeps
  the list as written.
- A second translate is not always a no-op. It is one for translators
  whose successful answers are non-blank and carry no surrounding white
  space (`TranslateTwiceIsOnce`); that condition is sufficient, not
  necessary. A non-blank answer padded with white space can break it: the
  second pass takes the padded slot as its source and trims it
  (`TranslateTwiceCanDiffer`).
- Filling is complete only for a translator that never answers blank
  text. The code stores whatever text comes back (app.py:134, 166), so a
  translator answering `""` leaves a filled slot blank. `FillIsComplete`
  and `ChineseOutlineScenario` assume a translator that never answers
  blank text.

## Model

| member | source | states |
|---|---|---|
| `Strings.Trim` | app.py:145 | `strip()` yields a string that neither starts nor ends with white space and is no longer than its input; it is empty exactly when the input is blank |
| `Strings.TrimStartIsSuffix` | app.py:145 | dropping leading white space yields the longest suffix that does not start with white space, and what was dropped is all white space |
| `Strings.TrimEndIsPrefix` | app.py:145 | dropping trailing white space yields the longest prefix that does not end with white space, and what was dropped is all white space |
| `Strings.TrimIsSlice` | app.py:145 | the stripped text is the contiguous slice of the input that starts where the leading white space ends |
| `Strings.TrimDropsOnlySpace` | app.py:145 | everything outside that slice is white space |
| `Strings.TrimIdempotent` | app.py:145 | stripping twice is stripping once |
| `Scenes.Block.Set` | app.py:166 | writing `block[lang]` changes that slot and no other |
| `Scenes.Scene.constructor` | app.py:16-24 | a new scene carries the given id, an empty image name and three blocks whose zh, en and id slots are all `""` |
| `Scenes.Scene.SetText` | app.py:166 | writing `scene[field][lang]` changes one slot; the other slots, the other blocks and the image name stay as they were |
| `Scenes.Scene.AttachImage` | app.py:258-259 | an upload sets the image name and leaves every text untouched |
| `ProjectStore.Swap` | app.py:224 | the tuple swap exchanges two positions, keeps every other position and keeps the multiset of scenes |
| `ProjectStore.RemoveAt` | app.py:236 | `pop(idx)` keeps the scenes before idx in place, shifts those after it down by one, and removes exactly that one scene |
| `ProjectStore.Project.constructor` | app.py:76 | a new project has no scenes and its counter at 1 |
| `ProjectStore.Project.AddScene` | app.py:109-112 | a fresh empty scene with id = old counter is appended, the counter rises by exactly one, the new id exceeds every existing id, and ids stay unique |
| `ProjectStore.Project.MoveUp` | app.py:223-224 | a no-op at index 0; otherwise exactly the scenes at idx-1 and idx trade places; the counter is unchanged and ids stay unique |
| `ProjectStore.Project.MoveDown` | app.py:229-230 | a no-op at the last index; otherwise exactly the scenes at idx and idx+1 trade places; the counter is unchanged and ids stay unique |
| `ProjectStore.Project.Delete` | app.py:235-236 | the list becomes `scenes[..idx] + scenes[idx+1..]`, survivors keep their ids, and the counter is not lowered |
| `ProjectStore.IdsAreNotReused` | app.py:109-112 | add a scene (id 1), delete it, and add another: it gets id 2 |
| `ProjectStore.Store.constructor` | app.py:28-38 | a session starts with one empty default project, and that project is current |
| `ProjectStore.Store.CreateProject` | app.py:73-78 | a blank trimmed name or an existing key changes nothing; otherwise a fresh empty project with counter 1 is stored under the trimmed name and made current, and every existing project keeps its name and object |
| `Translation.TranslateText` | app.py:127-137 | a blank text translates to `""`; otherwise the result is exactly the translator's answer text when it succeeds, and the input verbatim when it fails |
| `Translation.FirstNonBlank` | app.py:150-155 | a language found is in the list and non-blank; none found means every listed language is blank |
| `Translation.FirstNonBlankAt` | app.py:150-153 | the loop stops at the first non-blank language when all before it are blank |
| `Translation.FirstNonBlankNone` | app.py:154-155 | with every language blank, no source is found |
| `Translation.PickSource` | app.py:145-155 | the source-selection loop returns exactly `SourceLang`, the first of `[base, zh, en, id]` whose trimmed text is non-empty |
| `Translation.FillLoopMeetsTranslatedBlock` | app.py:160-173 | the fill loop plus the write-back of the source slot produce the slot-by-slot block `TranslatedBlock` |
| `Translation.TranslateBlock` | app.py:140-173 | the block becomes `TranslatedBlock` of its old value; the other blocks and the image name are unchanged; the warnings are exactly `BlockWarnings` |
| `Translation.TranslateScene` | app.py:176-178 | each of the three blocks becomes `TranslatedBlock` of its own old value, the image name does not change, and the warnings are visual's, then outline's, then dialogue's |
| `TranslationProperties.FirstNonBlankIndex` | app.py:150-153 | the language found sits at an index with only blank languages before it |
| `TranslationProperties.RankIsFirstPosition` | app.py:148 | `Rank(base, m)` is the first position of m in `[base, zh, en, id]` |
| `TranslationProperties.SourceLangIsFirstByPriority` | app.py:145-155 | l is the source exactly when its slot is non-blank and every language ranked ahead of it is blank (both directions) |
| `TranslationProperties.NoSourceIffAllBlank` | app.py:150-155 | there is no source exactly when all three slots are blank |
| `TranslationProperties.BlankBlockUnchanged` | app.py:154-155 | a block with all three slots blank is left completely unchanged |
| `TranslationProperties.NeverOverwrites` | app.py:163-164 | a non-blank slot that is not the source is bit-for-bit unchanged, not even trimmed |
| `TranslationProperties.SourceSlotTrimmed` | app.py:171-173 | the source slot ends holding its own trimmed text |
| `TranslationProperties.BlankSlotFilled` | app.py:163-166 | a blank slot gets the translator's text for (trimmed source, source language, that language), or the trimmed source text verbatim when the translator fails |
| `TranslationProperties.FillIsComplete` | app.py:160-166 | if any slot was non-blank and the translator never answers blank text, all three slots end non-blank |
| `TranslationProperties.BaseSlotCleanAfterFill` | app.py:148-166 | for a block with some non-blank slot, one pass with a clean translator leaves the base-language slot non-blank and trimmed |
| `TranslationProperties.TranslateTwiceIsOnce` | app.py:140-173 | with a translator whose answers are non-blank and trimmed, translating a block twice equals translating it once |
| `TranslationProperties.TranslateTwiceCanDiffer` | app.py:140-173 | a translator answering `" x"` makes the second pass differ from the first |
| `TranslationProperties.PriorityPicksEnglish` | app.py:148-153 | with base id, id and zh blank and en = `"Hello"`, en is the source |
| `TranslationProperties.WarningsUpToMembers` | app.py:135-136 | the fill loop's warnings are exactly its blank, non-source targets for which the translator failed |
| `TranslationProperties.WarningIffFallback` | app.py:135-136 | a block raises warning (src, tgt) exactly when src is its source, tgt was blank, and the translator failed on the trimmed source text |
| `TranslationProperties.ChineseOutlineScenario` | app.py:140-173 | for a translator that never answers blank text, outline `{zh: "你好"}` with base zh keeps `"你好"` and ends with en and id non-blank |
| `Export.ExportRows` | app.py:320-343 | one row per scene in list order; row k carries the project name, number k+1, the image name and each of the nine texts as they stand; nothing is modified |
| `Export.ExportOfNewScene` | app.py:320-343 | a fresh project with one added scene exports one row numbered 1 with an empty image name and nine empty texts |
| `Preview.Shorten` | app.py:214 | the preview is at most 21 characters: the text itself up to 20, else its first 20 characters and "…" |
| `Preview.FirstNonEmpty` | app.py:207-210 | the `or` chain yields `""` exactly when every slot is the empty string, and otherwise the untrimmed text of the first slot of `[base, zh, en, id]` that is not the empty string |
| `Preview.OutlinePreview` | app.py:206-214 | with all slots empty the preview is the placeholder; otherwise, for the first non-empty slot by priority, it is the placeholder when that slot is white space only, and otherwise `Shorten` of the trimmed slot text (the text itself up to 20 characters, else its first 20 characters and "…") |
| `Preview.BlankBaseHidesOutline` | app.py:207-213 | base id holding `"  "` and zh = `"你好"`: the preview is the placeholder although zh is the translation source |
| `Preview.OutlinePreviewOfSource` | app.py:206-214 | the corrected preview is the placeholder when there is no source language; otherwise it is 1 to 21 characters: the whole trimmed source text when that has at most 20 characters, and its first 20 characters plus "…" when longer |
| `Preview.AllBlankShowsPlaceholder` | app.py:212-213 | the corrected preview shows the placeholder when every slot is blank |
| `Preview.PreviewsAgreeWithoutBlankSlots` | app.py:206-214 | when no slot holds white space only, the preview as written equals the corrected one |

## Left out

- The Streamlit page is not modelled: layout, buttons, `st.rerun`, the Deploy placeholder (app.py:118) and the download button. These are UI.
- Switching projects through the select box (app.py:56-65) is not modelled. It only sets the current name to an existing key.
- The session-state key syncing is not modelled: the `st.session_state[key]` writes in `translate_block` (app.py:167-168, 171-172) and `bind_text_field` (app.py:184-197). They bind widgets; the data writes they mirror are `Scene.SetText`.
- The googletrans call and the `LANG_FULL` locale mapping (app.py:10, 131-134) are not modelled. The translator is a function parameter, so the model treats it as deterministic: the same request always gets the same answer.
- The text of the warning `st.warning` shows, including the exception message, is not modelled. A warning is the pair (source, target).
- Image bytes (`image_data`, app.py:260-266) are not modelled. Only the image name is kept.
- The CSV text is not modelled: the pandas DataFrame, the header line, quoting and the UTF-8 byte-order mark (app.py:345-346). Only the row sequence is.
- There is no concurrency in the code; every operation runs to completion within one rerun.

## Findings

| source | as written | input that shows it | evidently intended | confidence | as-written member | corrected member |
|---|---|---|---|---|---|---|
| app.py:207-214 | the preview picks the first slot that is not the empty string and only then trims it, so a slot holding only white space wins the `or` chain and hides the slots after it | outline `{zh: "你好", en: "", id: "  "}` with base language id shows "（暂无大纲内容）" | show the first slot whose trimmed text is non-empty, the rule `translate_block` uses for its source language | medium, not executed | `Preview.BlankBaseHidesOutline` | `Preview.OutlinePreviewOfSource` |
