# A model of the site's interactive pages

The site is a Next.js application whose pages keep their state in React hooks and
compute what they show from it. This project models, in Dafny, the logic of ten of
those pages and proves what each of them does:

- **editor** — the markdown editor: the word and character counters, the toolbar's
  `insertMarkdown` (wrap the selection in a prefix and a suffix and restore the
  selection), and `renderMarkdown`, a chain of regular-expression substitutions
  followed by a line-by-line table pass and two paragraph rules.
- **academic** — the papers page: search, topic filter, the three sort keys in both
  directions, the topic toggle and the Research / Review tabs.
- **academic-archive** — the archive: search, type and year filters, and the BibTeX,
  APA and MLA citations.
- **newsletter-builder** — the block list: drag-and-drop reordering, adding a block of
  a toolbar kind, removing a block and updating a block's content or settings.
- **podcast-player** — one episode's player: the `m:ss` clock, the active chapter,
  the play / mute / volume / seek / skip handlers and the simulated playback tick.
- **podcast** — the episode list: search, play / stop of one shared audio element,
  volume, mute and speed, notes and timestamps saved per episode, and the link taken
  from a show note.
- **quotes** — the quote board: category and search filter, order by rating or date,
  and the row of stars drawn for a rating.
- **videos** — the gallery: the tag list, the search and tag filter, the tag toggle
  and the embed address.
- **signup** — the sign-up form: the e-mail pattern, the three field errors, clearing
  an error on typing, and the gate in front of submission.
- **blog/add** — the new-post form: read time, tag parsing and putting the post at
  the front of the stored list.

Where the page computes a value from its inputs the model is a function; where a
handler updates the page's state the model is a class whose fields are that state
and whose methods are the handlers, each stating the whole new state. The loops of
the source (the table pass and its `forEach` over the cells, the star loops, the
array shift of a drag) are methods with loop invariants, proved against functions
that are in turn the subject of the lemmas.

Modules: `Options` and `Text` (strings, `includes`, `trim`, `split`, `join`,
`indexOf`, `replace`), `Lists` (filter, insertion sort by key, toggle, distinct),
`MarkdownRules`, `MarkdownTables`, `MarkdownRender`, `MarkdownEditing`, `Academic`,
`Archive`, `Newsletter`, `PodcastPlayer`, `PodcastList`, `Quotes`, `Signup`,
`BlogAdd`, `Videos`.

### Where the renderer does something other than a markdown renderer would

The model follows the code as written. Four consequences are proved:

- The link pattern `\[(.*?)\]$$(.*?)$$` has no `m` flag, so each `$` is the end of
  the text. It matches only a `[` whose `]` is the text's last character, with no
  newline between them, and the link it writes has an empty `href`
  (`MarkdownRules.LinkRuleChanges`, `MarkdownRules.LinkRuleFirst`). A link written
  `[text](url)` is not converted.
- The image rule runs after the link rule and so never changes anything
  (`MarkdownRules.ImageRuleDead`).
- The merge of adjacent lists, `</ul>\s*<ul>` replaced by nothing, can leave a
  boundary behind: `</ul></ul><ul><ul>` becomes `</ul><ul>`
  (`MarkdownRules.ListMergeLeavesBoundary`). On the lines the bullet rule itself
  writes, consecutive items do merge into one list as long as no item's text
  contains that list's own closing tag; items carrying `<strong>`, `<em>` or `<a>`
  merge too (`MarkdownRules.ListMerge`).
- The table splice pattern `\|.*\|(\n\|.*\|)+` needs a pipe at both ends of each
  line. A table written as `a|b` / `---|---` / `c|d` is never spliced, and the text
  comes out of the table pass unchanged (`MarkdownTables.TablesPass`).
  A table framed by pipes is replaced by its HTML (`MarkdownTables.FramedTable`).

## Model

| member | source | states |
|---|---|---|
| MarkdownEditing.StripSyntax | app/editor/page.tsx:18 | the stripped text keeps every other character in order and holds none of `#`, `*`, backtick, `_`, `~` |
| MarkdownEditing.CharCount | app/editor/page.tsx:18-21 | the character count is the length minus the number of syntax characters |
| MarkdownEditing.WordsAreRuns | app/editor/page.tsx:19 | splitting on whitespace and dropping empty pieces gives one word per word beginning (a non-blank character first or after a blank) |
| MarkdownEditing.WordStartsTrim | app/editor/page.tsx:19 | trimming before the split removes no word |
| MarkdownEditing.WordCountSpec | app/editor/page.tsx:18-20 | the word count is the number of maximal non-blank runs of the text without syntax characters; a blank text has none |
| MarkdownEditing.Substring | app/editor/page.tsx:30-32 | `substring` clamps both ends to the length; on an in-range pair it is the slice |
| MarkdownEditing.InsertMarkdown | app/editor/page.tsx:24-26 | without a text area nothing happens; with one there is always an edit |
| MarkdownEditing.InsertMarkdownText | app/editor/page.tsx:28-35 | the new text is before, prefix, selection, suffix, after; it grows by the two markers |
| MarkdownEditing.InsertMarkdownSelection | app/editor/page.tsx:38-42 | the restored selection spans exactly the old selected text, and the text before and after is unchanged |
| MarkdownRules.HeadingLineCases | app/editor/page.tsx:50-52 | a line starting `### `, `## ` or `# ` (tested in that order) gets the tag of that level, any other line is left alone |
| MarkdownRules.HeadingsLines | app/editor/page.tsx:50-52 | the heading rules keep the number of lines and rewrite line k by the heading rules alone |
| MarkdownRules.LevelFourHeadingUnchanged | app/editor/page.tsx:50-52 | `#### x` matches none of the three heading rules |
| MarkdownRules.MapLinesLines | app/editor/page.tsx:50 | a `gm` rule anchored to whole lines that keeps lines free of newlines rewrites line k by itself and keeps the line count |
| MarkdownRules.MapLinesIdentity | app/editor/page.tsx:65-72 | a line rule that changes no line leaves the text unchanged |
| MarkdownRules.CloseOnLine | app/editor/page.tsx:55-56 | the lazy `(.*?)` stops at the first closing delimiter, with no newline crossed |
| MarkdownRules.SpansIdentity | app/editor/page.tsx:55-56 | text without the delimiter's first character is left alone by the bold and italic rules |
| MarkdownRules.SpanWrapped | app/editor/page.tsx:55-56 | a delimited span on one line is wrapped in the tags and the scan resumes after it |
| MarkdownRules.FindLink | app/editor/page.tsx:59 | the scan finds the leftmost `[` the link pattern can match at, or reports that there is none |
| MarkdownRules.LinkRule | app/editor/page.tsx:59 | without a link match the text is unchanged |
| MarkdownRules.LinkRuleFirst | app/editor/page.tsx:59 | the leftmost match is rewritten: label up to the final `]`, `href` empty |
| MarkdownRules.LinkRuleChanges | app/editor/page.tsx:59 | the link rule changes the text exactly when it ends in a `[...]` lying on its last line |
| MarkdownRules.FindImage | app/editor/page.tsx:62 | the scan finds an `![` the image pattern can match at, or reports that there is none |
| MarkdownRules.ImageRule | app/editor/page.tsx:62 | without an image match the text is unchanged |
| MarkdownRules.ImageRuleDead | app/editor/page.tsx:59-62 | after the link rule the image rule never changes the text |
| MarkdownRules.MergeOf | app/editor/page.tsx:75-76 | a closing tag, a whitespace run and an opening tag form one merge match of exactly that length |
| MarkdownRules.MergeParts | app/editor/page.tsx:75-76 | every merge match is a closing tag, a whitespace run and an opening tag |
| MarkdownRules.CollapseIdentity | app/editor/page.tsx:75-76 | text without the closing tag's first character is left alone by a merge |
| MarkdownRules.CollapseAtMerge | app/editor/page.tsx:75-76 | a match is replaced as a whole and the scan resumes after it |
| MarkdownRules.CollapseKeepsTags | app/editor/page.tsx:122 | the paragraph merge deletes only whitespace: the non-blank characters come through in order |
| MarkdownRules.CollapseNested | app/editor/page.tsx:75 | `</ul></ul><ul><ul>` becomes `</ul><ul>` |
| MarkdownRules.ListMergeLeavesBoundary | app/editor/page.tsx:75 | the list merge can leave a `</ul>` followed by `<ul>`, which is again a match |
| MarkdownRules.CollapseListBody | app/editor/page.tsx:71-76 | the lines of single-item lists after the first opening tag merge into the items and one closing tag, when no item contains that closing tag |
| MarkdownRules.ListMerge | app/editor/page.tsx:71-76 | consecutive list-rule lines become one list holding all the items, when no item contains the closing tag of its own list (other tags are allowed) |
| MarkdownTables.LineEnd | app/editor/page.tsx:80 | the end of a line is the first newline at or after the position, or the end of the text |
| MarkdownTables.LastPipe | app/editor/page.tsx:108 | the greedy any-characters-then-pipe part of a row stops at the last pipe of the line |
| MarkdownTables.RowsFrom | app/editor/page.tsx:108 | the repeated newline-and-row part ends on a pipe, at least one row past the start |
| MarkdownTables.BlockAt | app/editor/page.tsx:108 | a splice match starts and ends with a pipe |
| MarkdownTables.RowsFromRun | app/editor/page.tsx:108 | the row part takes a run of framed rows whole and stops where no row follows |
| MarkdownTables.BlockAtRun | app/editor/page.tsx:108 | a framed line followed by framed rows is one splice match |
| MarkdownTables.SpliceOne | app/editor/page.tsx:108 | a match between two pipe-free stretches is the only thing the splice changes |
| MarkdownTables.NonBlank | app/editor/page.tsx:89 | the kept cells are exactly the pieces that are not blank, none of them blank |
| MarkdownTables.AppendCells | app/editor/page.tsx:91-93 | the `forEach` appends each cell, trimmed and wrapped, in order |
| MarkdownTables.AppendHeaderRow | app/editor/page.tsx:89-94 | the header branch appends the row tags around one `<th>` per cell and opens the body |
| MarkdownTables.AppendBodyRow | app/editor/page.tsx:99-104 | the body branch appends one `<td>` per cell between the row tags |
| MarkdownTables.RenderTables | app/editor/page.tsx:79-116 | the method computes the table pass; a text with no pipe is unchanged |
| MarkdownTables.RunTableLoop | app/editor/page.tsx:84-115 | the loop over the lines computes the loop function from its start state, no table open |
| MarkdownTables.SingleTable | app/editor/page.tsx:84-115 | with one table (a pipe line, a skipped line, pipe rows, then no pipe line) every splice match is replaced by that table's HTML |
| MarkdownTables.FramedTable | app/editor/page.tsx:79-116 | a table whose lines all start and end with a pipe, among pipe-free lines, is replaced by its HTML and the other lines are kept |
| MarkdownTables.NoSpliceWithoutFramedLine | app/editor/page.tsx:108 | without a pipe right before a newline the splice changes nothing |
| MarkdownTables.LoopKeepsText | app/editor/page.tsx:84-115 | then the loop returns the text unchanged, whatever it builds |
| MarkdownTables.TablesPass | app/editor/page.tsx:79-116 | a text with no pipe, or with no pipe right before a newline (a table written without outer pipes), comes out of the pass unchanged |
| MarkdownRender.RenderMarkdown | app/editor/page.tsx:45-125 | the method's substitutions, in order, compute the renderer's function of the input |
| MarkdownRender.InlinePlain | app/editor/page.tsx:55-62 | text without `*` or `]` passes the inline rules unchanged |
| MarkdownRender.NoBracketNoLink | app/editor/page.tsx:59-62 | without `]` neither link nor image rule matches |
| MarkdownRender.HeadingsIdentity | app/editor/page.tsx:50-52 | a text with no heading line passes the heading rules unchanged |
| MarkdownRender.NoPipeNoTable | app/editor/page.tsx:79 | the table pass is skipped on a text without a pipe |
| MarkdownRender.RestOfElement | app/editor/page.tsx:55-122 | an element with a tag no later rule reacts to survives every rule after the headings |
| MarkdownRender.HeadingLineOf | app/editor/page.tsx:50-52 | exactly the rule of the heading's own level matches it |
| MarkdownRender.RenderHeading | app/editor/page.tsx:45-125 | a level one, two or three heading of plain text renders as that heading alone |
| MarkdownRender.RenderLevelFourHeading | app/editor/page.tsx:45-125 | `#### x` renders as a paragraph holding `#### x` |
| MarkdownRender.RenderParagraph | app/editor/page.tsx:119-122 | a plain non-blank line that no other rule claims renders as one paragraph |
| MarkdownRender.NumberedItemQuiet | app/editor/page.tsx:50-71 | no rule before the numbered-item rule matches a numbered line |
| MarkdownRender.NumberedLines | app/editor/page.tsx:72 | the numbered-item rule turns each source line into a single-item ordered list |
| MarkdownRender.BlocksOfNumbered | app/editor/page.tsx:65-76 | the line rules and merges turn numbered lines into one ordered list, for items without a newline, `*`, `]`, a pipe or `<` |
| MarkdownRender.RenderOrderedList | app/editor/page.tsx:45-125 | consecutive numbered lines render as one ordered list holding every item in order, for items without a newline, `*`, `]`, a pipe or `<` |
| Academic.ToggleSortOrder | app/academic/page.tsx:183-185 | the toggle always gives the other direction |
| Academic.ToggleSortOrderTwice | app/academic/page.tsx:183-185 | toggling twice restores the order |
| Academic.Relevance | app/academic/page.tsx:213-214 | the relevance is the length of the selected topics filtered by the paper's topics, so never more than the selection |
| Academic.RelevanceShares | app/academic/page.tsx:200-214 | with no selection every relevance is 0; otherwise it is positive exactly when the paper passes the topic filter |
| Academic.ToggleTopic | app/academic/page.tsx:175-181 | toggling flips whether that topic is selected and no other's; a selected topic is dropped with the rest in order and every other topic's count kept, an unselected one appended |
| Academic.SortPapers | app/academic/page.tsx:205-217 | the sort is a permutation ordered by the chosen key, ascending or descending |
| Academic.FilteredPapers | app/academic/page.tsx:187-217 | the list holds each paper passing both filters as often as the data does, and nothing else, ordered by the chosen key in the chosen direction |
| Academic.FilteredPapersMembers | app/academic/page.tsx:187-204 | membership is passing both filters |
| Academic.NoFiltersKeepAll | app/academic/page.tsx:188-204 | an empty query and no topic keep every paper in order |
| Academic.TabsPartition | app/academic/page.tsx:363-389 | each paper is on exactly one of the two tabs, as often as on the list |
| Archive.TypeName | app/academic-archive/page.tsx:80 | no paper type is spelled `all` |
| Archive.FilteredPapers | app/academic-archive/page.tsx:74-84 | a paper is listed exactly when it is in the archive and passes search, type and year |
| Archive.FilteredPapersInOrder | app/academic-archive/page.tsx:74-84 | the filter keeps the archive's order |
| Archive.NoFiltersKeepAll | app/academic-archive/page.tsx:74-84 | empty search and both filters on `all` keep the whole archive |
| Archive.TypeFilterKeepsType | app/academic-archive/page.tsx:80 | a type filter keeps only papers of that type |
| Archive.GenerateCitation | app/academic-archive/page.tsx:86-103 | the three formats give a non-empty citation and any other name the empty text |
| Archive.Bibtex | app/academic-archive/page.tsx:89-95 | the BibTeX record starts `@article{id,` and, for a paper without line breaks, splits into its seven lines |
| Archive.Apa | app/academic-archive/page.tsx:97 | the APA text starts with the authors joined by commas, names every author, the `(year)`, the title and the journal, and ends with the DOI address |
| Archive.Mla | app/academic-archive/page.tsx:99 | the MLA text starts with the authors joined by commas, names every author, the quoted title and the journal, and ends with the year, `, doi:`, the DOI and a full stop |
| Archive.CitationNamesAuthors | app/academic-archive/page.tsx:86-101 | every author's name appears in the citation of every format |
| Newsletter.RemoveAt | app/newsletter-builder/page.tsx:99 | `splice(i, 1)` shortens the list by one |
| Newsletter.InsertAt | app/newsletter-builder/page.tsx:100 | `splice(i, 0, x)` lengthens the list by one |
| Newsletter.MovedIndex | app/newsletter-builder/page.tsx:95-103 | each position after a drag: the moved block at its landing place, the blocks between shifted by one, the rest in place |
| Newsletter.MovedAt | app/newsletter-builder/page.tsx:95-103 | the same for every position at once |
| Newsletter.MovedPermutation | app/newsletter-builder/page.tsx:95-103 | a drag keeps every block, as often as before |
| Newsletter.MovedKeepsOthers | app/newsletter-builder/page.tsx:95-103 | the moved block is at its landing place and the others keep their order |
| Newsletter.MovedBack | app/newsletter-builder/page.tsx:95-103 | dragging the block back from its landing place undoes the move |
| Newsletter.MoveInPlace | app/newsletter-builder/page.tsx:98-101 | shifting the copied array in place gives the moved list |
| Newsletter.DefaultContent | app/newsletter-builder/page.tsx:75-93 | only the toolbar's kinds have a default content |
| Newsletter.NewId | app/newsletter-builder/page.tsx:108 | a new id starts with the kind and a dash |
| Newsletter.WithoutId | app/newsletter-builder/page.tsx:119-124 | the blocks kept are exactly those with another id |
| Newsletter.WithoutIdKeepsOthers | app/newsletter-builder/page.tsx:119-124 | removal keeps the other blocks in order and as often as before |
| Newsletter.UpdateContentSpec | app/newsletter-builder/page.tsx:126-130 | only the content of blocks with that id changes; ids, kinds and settings stay |
| Newsletter.UpdateSettingsSpec | app/newsletter-builder/page.tsx:132-136 | the given settings override, the other old keys keep their values, other blocks are untouched |
| Newsletter.Builder.constructor | app/newsletter-builder/page.tsx:30-70 | the builder starts with the initial blocks and nothing being edited |
| Newsletter.Builder.HandleDragEnd | app/newsletter-builder/page.tsx:95-103 | a drop outside the list changes nothing; otherwise the block moves |
| Newsletter.Builder.AddBlock | app/newsletter-builder/page.tsx:105-117 | an offered kind appends one block with its default content and makes it the edited one; any other kind changes nothing |
| Newsletter.Builder.RemoveBlock | app/newsletter-builder/page.tsx:119-124 | the blocks with that id go; the edited block is cleared when it was that one |
| Newsletter.Builder.UpdateBlockContent | app/newsletter-builder/page.tsx:126-130 | the list becomes the content update of the old list |
| Newsletter.Builder.UpdateBlockSettings | app/newsletter-builder/page.tsx:132-136 | the list becomes the settings update of the old list |
| PodcastPlayer.TwoDigitsSpec | app/podcast-player/page.tsx:98-102 | seconds below a minute take exactly two digits, which read back as the seconds |
| PodcastPlayer.FormatTime | app/podcast-player/page.tsx:98-102 | the clock splits into minutes and two-digit seconds and reads back as the seconds it shows |
| PodcastPlayer.ParseClockOf | app/podcast-player/page.tsx:98-102 | minutes and seconds below sixty written `m:ss` read back as the total |
| PodcastPlayer.FormatTimeExamples | app/podcast-player/page.tsx:44-66 | 120, 600 and 2730 seconds read `2:00`, `10:00` and `45:30` |
| PodcastPlayer.ActiveIndex | app/podcast-player/page.tsx:115-125 | the active chapter is the last in list order starting at or before the time; none when all start later |
| PodcastPlayer.Forward | app/podcast-player/page.tsx:157-164 | ten seconds on, never past the end |
| PodcastPlayer.Backward | app/podcast-player/page.tsx:166-173 | ten seconds back, never before the start |
| PodcastPlayer.SkipsStayInside | app/podcast-player/page.tsx:157-173 | a time within the episode stays within it when skipped either way |
| PodcastPlayer.NextTime | app/podcast-player/page.tsx:183-205 | one tick is one second on, back to 0 at the episode's end, always within it |
| PodcastPlayer.AudioElement.constructor | app/podcast-player/page.tsx:207-210 | a new element is paused at 0, unmuted, at the given volume |
| PodcastPlayer.Player.constructor | app/podcast-player/page.tsx:74-79 | the page starts stopped at 0 at full volume with no active chapter |
| PodcastPlayer.Player.TogglePlayPause | app/podcast-player/page.tsx:104-113 | the element is paused or played and `isPlaying` flips; without an element nothing changes |
| PodcastPlayer.Player.HandleTimeUpdate | app/podcast-player/page.tsx:115-125 | the shown time follows the element and the active chapter is looked up for it |
| PodcastPlayer.Player.HandleLoadedMetadata | app/podcast-player/page.tsx:127-131 | the duration is taken from the element |
| PodcastPlayer.Player.Seek | app/podcast-player/page.tsx:133-138 | the element and the shown time move to the chosen second |
| PodcastPlayer.Player.HandleVolumeChange | app/podcast-player/page.tsx:140-147 | the volume is set on both and the page is muted exactly at 0 |
| PodcastPlayer.Player.ToggleMute | app/podcast-player/page.tsx:149-155 | the mute flag flips on the element and the page |
| PodcastPlayer.Player.SkipForward | app/podcast-player/page.tsx:157-164 | only the element's time moves, ten seconds on, capped at the duration |
| PodcastPlayer.Player.SkipBackward | app/podcast-player/page.tsx:166-173 | only the element's time moves, ten seconds back, floored at 0 |
| PodcastPlayer.Player.Tick | app/podcast-player/page.tsx:183-205 | one second on; at the end the time goes back to 0 and playback stops |
| PodcastList.FilteredPodcasts | app/podcast/page.tsx:178-181 | an episode is listed exactly when it matches the search |
| PodcastList.FilteredPodcastsSpec | app/podcast/page.tsx:178-181 | the search keeps the order and an empty query keeps every episode |
| PodcastList.TimestampLabel | app/podcast/page.tsx:459 | the saved-timestamp label is the player's `m:ss` clock and reads back as the time |
| PodcastList.ShowNoteLink | app/podcast/page.tsx:783 | a link exists exactly when the note has `: `; it is the text after the first one, up to the next one or the end |
| PodcastList.ShowNoteLinkOf | app/podcast/page.tsx:783 | `caption: url` with no colon in the caption links to the url |
| PodcastList.AppendAtSpec | app/podcast/page.tsx:276-290 | adding puts the item at the end of that episode's list and leaves the others alone |
| PodcastList.Audio.constructor | app/podcast/page.tsx:196 | a new element is paused at 0, full volume, normal speed, unmuted |
| PodcastList.Audio.Play | app/podcast/page.tsx:197 | playing unpauses the element and changes nothing else |
| PodcastList.Audio.Pause | app/podcast/page.tsx:191-193 | pausing pauses the element and changes nothing else |
| PodcastList.PodcastPage.constructor | app/podcast/page.tsx:164-176 | nothing plays; volume full, speed normal, unmuted, no notes or timestamps |
| PodcastList.PodcastPage.HandlePlay | app/podcast/page.tsx:183-207 | the playing episode is stopped; any other stops the old element, leaving its other settings, and plays a fresh one for that episode at the element defaults (volume 10 tenths, unmuted, speed 1, time 0), not the page's settings |
| PodcastList.PodcastPage.HandleEnded | app/podcast/page.tsx:202-205 | when the episode ends nothing plays |
| PodcastList.PodcastPage.HandleVolumeChange | app/podcast/page.tsx:232-237 | the volume is set on the element and the page |
| PodcastList.PodcastPage.HandleMuteToggle | app/podcast/page.tsx:239-244 | the mute flag flips on the element and the page |
| PodcastList.PodcastPage.HandlePlaybackSpeedChange | app/podcast/page.tsx:246-251 | the speed is set on the element and the page |
| PodcastList.PodcastPage.HandleAddNote | app/podcast/page.tsx:276-281 | the note goes to the end of the episode's notes |
| PodcastList.PodcastPage.HandleAddTimestamp | app/podcast/page.tsx:283-290 | the element's time goes to the end of the episode's timestamps, only when there is an element |
| Quotes.FilterQuotes | app/quotes/page.tsx:55-60 | a quote is kept exactly when it is on the board and passes category and search |
| Quotes.FilterQuotesInOrder | app/quotes/page.tsx:55-60 | the filter keeps the board's order |
| Quotes.NoFiltersKeepAll | app/quotes/page.tsx:55-60 | `All` with an empty search keeps the whole board |
| Quotes.ShapeOrder | app/quotes/page.tsx:61-66 | on dates of one shape numeric order of the date values is string order |
| Quotes.FilteredQuotes | app/quotes/page.tsx:55-66 | the board lists each quote passing the filter as often as it holds it, and nothing else, by rating or date value, largest first |
| Quotes.SortQuotes | app/quotes/page.tsx:61-66 | the sort is a permutation with no quote rated above, or dated after, one before it |
| Quotes.ByDateReverseLexicographic | app/quotes/page.tsx:61-66 | sorted by date, no `YYYY-MM-DD` date sorts after one above it |
| Quotes.RenderStars | app/quotes/page.tsx:68-92 | the loops build the rounded-down full stars, the half star, then the empty stars |
| Quotes.Stars | app/quotes/page.tsx:68-92 | full stars are the rating rounded down and come first, a half star exactly for a fraction, empty stars fill up to the rating rounded up and come last |
| Quotes.FiveStars | app/quotes/page.tsx:68-92 | a rating from 0 to 5 is drawn with five stars |
| Signup.ValidateEmail | app/signup/page.tsx:32-35 | the check accepts exactly the addresses `^[^\s@]+@[^\s@]+\.[^\s@]+$` matches |
| Signup.ValidEmailShape | app/signup/page.tsx:32-35 | an accepted address has exactly one `@` and no blank |
| Signup.Validate | app/signup/page.tsx:51-55 | a blank name, an empty or non-matching address and a password under six characters each get their message, and only they |
| Signup.NoErrorsIff | app/signup/page.tsx:51-62 | the form passes exactly when the name is not blank, the address matches and the password has six characters |
| Signup.ChangeTouchesOneField | app/signup/page.tsx:37-45 | typing changes that field alone and clears its error, leaving the others |
| Signup.SignupForm.constructor | app/signup/page.tsx:16-30 | the form starts empty, without errors, not submitting |
| Signup.SignupForm.HandleChange | app/signup/page.tsx:37-45 | the field takes the value and its error is cleared |
| Signup.SignupForm.HandleSubmit | app/signup/page.tsx:47-66 | the errors are shown and only a form without any starts the submission |
| Signup.SignupForm.SubmitFinished | app/signup/page.tsx:69-71 | after the delay the submission has finished and succeeded |
| BlogAdd.ReadMinutesSpec | app/blog/add/page.tsx:37 | at least one minute, and one minute per started thousand characters |
| BlogAdd.ReadMinutesExamples | app/blog/add/page.tsx:37 | 0 and 1000 characters read in one minute, 1001 in two |
| BlogAdd.ReadTime | app/blog/add/page.tsx:37 | the read time is the minute count followed by ` min read`, and reads back as that count |
| BlogAdd.ParseTagsSpec | app/blog/add/page.tsx:38 | there are commas plus one tags, none with blank at either end, and a blank piece gives the empty tag |
| BlogAdd.ParseTagsOfTrimmed | app/blog/add/page.tsx:38 | tags typed without blanks join back with commas into the input |
| BlogAdd.NewPostCopiesForm | app/blog/add/page.tsx:30-40 | the text fields are the form's, the id the clock and the date the formatted day |
| BlogAdd.BlogStore.constructor | app/blog/add/page.tsx:43-44 | the store holds the existing posts |
| BlogAdd.BlogStore.Prepend | app/blog/add/page.tsx:45-46 | the new post goes in front of the existing ones |
| BlogAdd.AddBlogForm.constructor | app/blog/add/page.tsx:16-22 | the form starts empty with the placeholder image, not submitting |
| BlogAdd.AddBlogForm.HandleSubmit | app/blog/add/page.tsx:24-52 | the form is marked submitting and its post goes to the front of the stored list |
| Videos.AllTags | app/videos/page.tsx:49 | the tag list names each tag of some video once, in the order tags first appear |
| Videos.FilteredVideos | app/videos/page.tsx:51-57 | a video is shown exactly when it matches the search and carries every selected tag |
| Videos.FilteredVideosSpec | app/videos/page.tsx:51-57 | the gallery's order is kept, and no search and no tag shows every video |
| Videos.MoreTagsFewerVideos | app/videos/page.tsx:54-55 | selecting one more tag never brings a video back |
| Videos.ToggleTag | app/videos/page.tsx:59-65 | toggling flips whether that tag is selected and no other's; a selected tag is dropped with the rest in order and every other tag's count kept, an unselected one appended |
| Videos.ToggleTagTwice | app/videos/page.tsx:59-65 | toggling an unselected tag twice restores the selection |
| Videos.EmbedUrl | app/videos/page.tsx:135 | an address without `watch?v=` is kept; otherwise its first `watch?v=` is replaced by `embed/` |
| Videos.EmbedUrlOf | app/videos/page.tsx:135 | `base` + `watch?v=` + id, with no `?` in base, becomes `base` + `embed/` + id |
| Text.TrimSpec | app/signup/page.tsx:51 | `trim` empties exactly the blank strings and leaves no blank at either end |
| Text.FindFrom | app/podcast/page.tsx:783 | `indexOf` finds the first occurrence at or after the start, or reports none |
| Lists.SortByKey | app/quotes/page.tsx:61-66 | the sort gives a permutation ordered by the key |
| Lists.Toggle | app/academic/page.tsx:175-181 | a selected value is removed, an unselected one appended |
| Lists.ToggleTwice | app/academic/page.tsx:175-181 | toggling an unselected value twice restores the selection |
| Lists.FilterIsSubsequence | app/quotes/page.tsx:55-60 | `filter` keeps the order |
| Lists.FilterCount | app/quotes/page.tsx:55-60 | `filter` keeps each passing element as often as before and drops the others |

## Left out

- Floating point: volume, playback speed and quote ratings are whole numbers of tenths
  (speed in hundredths), and media times are whole seconds. The fractional parts that
  `Math.floor`, `% 1` and `Math.ceil` see are modelled on those units.
- Whitespace is ASCII only: `\s` and `trim` are space, tab, newline, carriage return,
  vertical tab and form feed. Unicode blanks are not modelled, and nor are `\r`,
  U+2028 and U+2029 as line ends of `^` and `$`. `toLowerCase` folds ASCII letters only.
- MarkdownRules.CloseOnLine, MarkdownRules.LinkAt, MarkdownTables.LineEnd and
  MarkdownTables.RowsFrom: the regex `.` is modelled as any character but `\n`; in
  JavaScript it also refuses `\r`, U+2028 and U+2029, so on text holding those the
  source stops a match where the model goes on.
- MarkdownEditing.CharCount, MarkdownEditing.StripSyntax, MarkdownEditing.InsertMarkdown,
  BlogAdd.ReadTime and Signup.PasswordError: lengths and offsets count characters
  (code points), while JavaScript's `length` and selection offsets count UTF-16 code
  units; the two agree only on text inside the Basic Multilingual Plane.
- MarkdownTables.RenderTables: the table HTML is inserted as literal text; the special
  `$` patterns of a replacement string are not interpreted.
- MarkdownTables.FramedTable: states the result for a text holding a single table;
  with several tables the loop splices the HTML built so far at every table end, and
  only the one-table case is proved.
- MarkdownEditing.WordsAreRuns: `split(/\s+/)` is modelled as a split at each blank
  followed by the filter of empty pieces, which gives the same words.
- MarkdownEditing.InsertMarkdown: the text area, its focus and the `setTimeout`
  that restores the selection are parameters and results, not a document.
- Lists.SortByKey: the sort is an insertion sort by key. Only sortedness and
  permutation are stated; the order among equal keys is not.
- Academic.SortPapers: states the order by key and the permutation, not the
  exact order `Array.prototype.sort` gives papers with equal keys.
- Archive.FilteredPapers: `parseInt` of the selected year is modelled on strings of
  digits; leading blanks, signs and trailing junk are not modelled.
- Quotes.ByDateReverseLexicographic: `new Date(...).getTime()` is modelled as the
  digits of a `YYYY-MM-DD` date; malformed dates (which give `NaN`) and time zones
  are not modelled. Negative ratings are not modelled (ratings are `nat`).
- Newsletter.UpdateSettings: setting values are strings; values of other types are
  not modelled.
- The links and PDF fields of papers, the thumbnails and durations of videos and all
  rendering of JSX are not modelled: they only feed the view.
- I/O: `document.getElementById`, `localStorage` and its JSON encoding, the router,
  `Date.now()`, `toLocaleDateString`, timers, the clipboard, downloads and sharing
  are left out; the clock readings and formatted dates are parameters.
- BlogAdd.AddBlogForm: the per-field change handlers of the form are not modelled;
  the form is a field that the submit handler reads.
- PodcastPlayer.Player: the interval and the effects that install and remove
  listeners are not modelled; `Tick` is the interval's callback and the handlers
  are the listeners.
