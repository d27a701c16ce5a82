# Arboreo family-tree engine, modelled in Dafny

This project models the logic of a small family-tree web application, and proves properties about it. The model covers:

- **Graph engine** (`app/utils/graphUtils.ts`): age groups, node and link colours, and `buildFamilyGraph`. That function derives spouse and parent→child links from each person's `parents`, `spouse` and `children` id arrays. It also covers `findShortestPath`, a breadth-first search over those links taken in both directions, the family statistics and the upcoming-birthday projector.
- **GEDCOM codec** (`src/components/GedcomImportExport.tsx`): the text the export writes and the line parser of the import. A round-trip theorem connects the two.
- **State handlers of the two front ends.** `app/page.tsx` keeps relationships as id arrays and updates both sides of a new relation. `src/App.tsx` keeps them as typed relationship records and gives the new person the reverse type.
- **Smaller rules of the views:**
  - the ancestor levels and connectors of the generational chart;
  - link highlighting, search glow and the click-to-path rule of the graph view;
  - immediate-family resolution and the form guards of the side panel;
  - the time-remaining buckets, icons and colours of the events panel;
  - the birth-date timeline;
  - the notification scheduling window.

Modelling choices:

- Dates are `(year, month, day)` triples (`Dates.Date`). "Now" is always a parameter: a `Moment` is a date plus the milliseconds since its midnight.
  - `Dates.Normalize` models how `new Date(y, m, d)` rolls a day past the end of its month into the next month.
  - `Dates.DayNumber` and `Dates.Instant` give the proleptic Gregorian day count behind `getTime()`.
- Fresh uuids and timestamps are parameters, acting as a fresh-id oracle.
- `Array.prototype.sort` with a numeric comparator is modelled as a stable insertion sort (`Sorting.SortBy`). `Sorting.StableSortUnique` shows that any stable sort gives the same result.
- The two person shapes are `AppTypes.Person` (id arrays) and `SrcTypes.Person` (typed relationships). `app/components/GenerationalChart.tsx` reads `relationships`, which only `SrcTypes.Person` has, so its model uses `SrcTypes.Person` (see the last lines of "Left out").
- Gender is the closed set male/female/trans, and relationship types are spouse/parent/child/sibling. These are exactly the options the forms offer (app/components/Sidebar.tsx:407-410, 442-444).
- The imperative code keeps its form:
  - `buildFamilyGraph`, the search, the GEDCOM export and import loops, `getAncestors`, `getImmediateFamily`, the stroke-opacity scan and `scheduleEventNotifications` are methods with loops. Each is proved against a specification function or states its result outright.
  - The `people`/`activities` state of both front ends is a class (`HomePage.Home`, `SrcApp.App`), and so are the side panel's form state (`Sidebar.Panel`).

## Model

| member | source | states |
|---|---|---|
| GraphUtils.GetAgeGroup | app/utils/graphUtils.ts:3-12 | infant iff the year difference is below 2, kid iff 2–12, adult iff 13–64, senior iff 65 or more |
| GraphUtils.GetNodeColor | app/utils/graphUtils.ts:14-42 | the main user is black whatever the gender or age; anyone else gets the palette entry of their gender and age group |
| GraphUtils.PaletteInjective | app/utils/graphUtils.ts:19-40 | the palette never uses the main user's black and gives each (gender, age group) its own colour |
| GraphUtils.GetLinkColor | app/utils/graphUtils.ts:44-51 | spouse, parent-child and sibling get their colours; any other type string gets the grey default |
| GraphUtils.LinkColorsDistinct | app/utils/graphUtils.ts:44-51 | the three link types get three distinct colours, none of them the default |
| GraphUtils.GetDefaultProfilePic | app/utils/graphUtils.ts:143-166 | trans people get the portrait of a young male (infant or kid) |
| GraphUtils.PortraitsDistinct | app/utils/graphUtils.ts:143-166 | for people who are not trans, two portraits are equal iff gender and life stage agree, with infant and kid one stage |
| GraphUtils.LinkSide | app/utils/graphUtils.ts:59-97 | one inner pass keeps every link resolving, declared and unduplicated; it only appends, and afterwards every resolving id on that side is linked to the person |
| GraphUtils.BuildFamilyGraph | app/utils/graphUtils.ts:53-101 | nodes are the people in input order; every link joins two input ids and is backed by a declaration, and parent-child links always point parent→child; no two links share an unordered pair and type; every resolving spouse/child/parent id is linked |
| PathFinder.BuildAdjacency | app/utils/graphUtils.ts:109-118 | the map has a key per node id, and v is in u's list iff u is a node and some link joins u and v in either direction |
| PathFinder.ExpandNode | app/utils/graphUtils.ts:131-137 | enqueueing the unvisited neighbours keeps every queued walk simple and shortest, and the queue layered by length; all neighbours end up visited |
| PathFinder.LeavesFrontier | app/utils/graphUtils.ts:121-138 | any walk to an unvisited id is longer than the walk being expanded: the core invariant of breadth-first search |
| PathFinder.Bfs | app/utils/graphUtils.ts:120-140 | returns [from] when from = to; otherwise a simple, shortest walk from from to to, or [] exactly when no walk exists; terminates because ids are marked visited when enqueued |
| PathFinder.FindShortestPath | app/utils/graphUtils.ts:103-141 | [fromId] when the ids are equal; otherwise a path that starts at fromId, ends at toId, joins consecutive ids by a link in either direction, repeats no id and has minimum hop count; [] iff no path exists |
| Statistics.LivingPlusDeceased | app/utils/graphUtils.ts:169-171 | livingMembers + deceasedMembers = totalMembers |
| Statistics.AverageAge | app/utils/graphUtils.ts:173-178 | no value (the source's NaN) exactly for an empty list; otherwise average × count = the sum of year-only ages, using the death year when there is one |
| Statistics.GenderTally | app/utils/graphUtils.ts:180-183 | the three gender counts sum to the number of people |
| Statistics.GenderTallyCounts | app/utils/graphUtils.ts:180-183 | each gender count is the number of people of that gender |
| Statistics.AgeGroupTally | app/utils/graphUtils.ts:185-189 | the four age-group counts sum to the number of people |
| Statistics.AgeGroupTallyCounts | app/utils/graphUtils.ts:185-189 | each count is the number of people whose birth date falls in that group against today, deceased people included |
| Statistics.FirstNames | app/utils/graphUtils.ts:191 | the first token of each name after splitting on one space, in order |
| Statistics.LastNames | app/utils/graphUtils.ts:201 | the last token of each name after splitting on one space, in order |
| Statistics.TallyExact | app/utils/graphUtils.ts:192-195 | each tallied count equals the number of occurrences of its name, and is at least 1 |
| Statistics.TallyFirstSeen | app/utils/graphUtils.ts:192-195 | the keys of the counts object come in the order they were added, which is the order the names first occur |
| Statistics.ArrayIndexInjective | app/utils/graphUtils.ts:196 | two array-index names (canonical decimals below 2^32 − 1, section 6.1.7 of ECMA-262) with the same numeric value are the same name |
| Statistics.KeysPartition | app/utils/graphUtils.ts:196 | the array-index keys and the other keys together hold every entry of the counts once |
| Statistics.EntriesOrder | app/utils/graphUtils.ts:196-197 | `Object.entries` lists the array-index names first, in strictly ascending numeric order, then every other name in first-occurrence order (OrdinaryOwnPropertyKeys, section 10.1.11.1 of ECMA-262) |
| Statistics.IndexNamesFirst | app/utils/graphUtils.ts:201-209 | for the last names of "Ann Smith" and "Bob 7" the result is [7: 1, Smith: 1]: the later name `7` comes first |
| Statistics.CommonNamesCounts | app/utils/graphUtils.ts:196-199 | at most 5 entries, min(5, distinct names) of them, with non-increasing counts; each is a distinct name with its exact number of occurrences |
| Statistics.CommonNamesTieOrder | app/utils/graphUtils.ts:196-199 | entries with equal counts keep the `Object.entries` order, because the sort is stable: array-index names by value, ahead of the other names, which follow first occurrence |
| Statistics.CommonNamesTieOrderPlain | app/utils/graphUtils.ts:196-199 | when no name is an array index, entries with equal counts keep first-occurrence order |
| Statistics.CommonNamesTop | app/utils/graphUtils.ts:196-199 | a name left out of the top five occurs no more often than any name kept |
| Statistics.StatisticsConsistent | app/utils/graphUtils.ts:168-221 | in the statistics record, living + deceased, the gender counts and the age-group counts each add up to totalMembers; an average exists iff totalMembers > 0; both name lists have at most five entries |
| Dates.Normalize | app/utils/graphUtils.ts:226-231 | the `new Date(y, m, d)` date: always a real calendar day; the given day when it exists in the month, otherwise rolled into the next month |
| Dates.NextMonth | app/utils/graphUtils.ts:226 | the window's end: a real date strictly after today, in the next month or the one after |
| UpcomingEvents.BirthdayIn | app/utils/graphUtils.ts:230-231 | the birthday in the given year is always a real date in that year; it is the same month and day whenever that day exists in the year |
| UpcomingEvents.UpcomingBirthday | app/utils/graphUtils.ts:230-233 | this year's birthday if its midnight is not before now, else next year's |
| UpcomingEvents.BirthdayEvent | app/utils/graphUtils.ts:236-244 | a birthday event with id `birthday-<id>` for the person, dated on the upcoming birthday, titled `<name>'s <age><suffix> Birthday` and described as `<name> turns <age>`, where age is the year of that birthday less the birth year |
| UpcomingEvents.SuffixOrdinal | app/utils/graphUtils.ts:240 | the suffix is `st`, `nd` or `rd` exactly for the ages 1, 2 and 3, and `th` for every other age (11, 21, 22 included) |
| UpcomingEvents.DescriptionAge | app/utils/graphUtils.ts:243 | for a non-negative age, the description is `<name> turns ` followed by the decimal digits that read back as the age |
| UpcomingEvents.CandidatesExactly | app/utils/graphUtils.ts:228-246 | an event is pushed iff it is the birthday event of someone whose upcoming birthday is no later than a month ahead |
| UpcomingEvents.EventsInWindow | app/utils/graphUtils.ts:226-248 | every event is a birthday between now and one month ahead, and the events are in chronological order |
| UpcomingEvents.GenerateUpcomingEvents | app/utils/graphUtils.ts:223-249 | the result is a permutation of the pushed events; it is sorted by date, stable for equal dates, and contains the event of everyone in the window |
| Sorting.SortBy | src/components/Timeline.tsx:12-14 | a permutation of the input in non-decreasing key order |
| Sorting.SortByStable | src/components/Timeline.tsx:12-14 | for every key, the elements with that key leave in the order they came |
| Sorting.StableSortUnique | src/components/Timeline.tsx:12-14 | two sorted sequences with the same elements per key, in the same order, are equal, so any stable sort gives SortBy's result |
| Text.FirstToken | app/utils/graphUtils.ts:191 | `split(' ')[0]`: a prefix of the string with no space, ending at the first space or the end |
| Text.SplitJoin | src/components/GedcomImportExport.tsx:101 | splitting at a separator undoes joining pieces that do not contain it |
| GedcomExport.ExportToGedcom | src/components/GedcomImportExport.tsx:18-77 | the text is the header lines, then one INDI record per person, then one FAM record per distinct spouse pair, then the trailer, each line followed by a line feed |
| GedcomExport.EmitIndividuals | src/components/GedcomImportExport.tsx:27-46 | person i gets `0 @I<i+1>@ INDI`, NAME, SEX (M, F, U for anyone else), a BIRT/DATE pair always, and PLAC, DEAT/DATE, OCCU and NOTE only when location, deathDate, profession and biography are present and non-empty |
| GedcomExport.ExportFrame | src/components/GedcomImportExport.tsx:19-77 | the text opens with the six fixed header lines and ends with `0 TRLR`, and no line is a CHIL line |
| GedcomExport.FirstSpouse | src/components/GedcomImportExport.tsx:52 | the id of the first spouse-typed relationship, present iff the person has one |
| GedcomExport.SpousePair | src/components/GedcomImportExport.tsx:53-62 | a pair of 1-based record numbers within the list, lower first (HUSB) and higher second (WIFE) whatever the genders, one of them the person's own |
| GedcomExport.BuildFamilies | src/components/GedcomImportExport.tsx:49-66 | the loop builds exactly the family list of the first pass |
| GedcomExport.FamiliesDistinct | src/components/GedcomImportExport.tsx:56-63 | no unordered index pair is written twice |
| GedcomExport.FamiliesSound | src/components/GedcomImportExport.tsx:51-66 | every family written is the pair of some person |
| GedcomExport.FamiliesComplete | src/components/GedcomImportExport.tsx:51-66 | every person's pair is written |
| GedcomExport.EmitFamilies | src/components/GedcomImportExport.tsx:68-75 | FAM record k writes `0 @F<k>@ FAM` with HUSB and WIFE lines and no CHIL lines |
| GedcomImport.SexOf | src/components/GedcomImportExport.tsx:124-128 | M reads as male and F as female; anything else reads as trans |
| GedcomImport.FullYear | src/components/GedcomImportExport.tsx:133 | a year of three or more digits is kept; a two-digit year falls in 1950–2049 |
| GedcomImport.ParseDate | src/components/GedcomImportExport.tsx:129-137 | any date it reads is a real calendar day |
| GedcomImport.ReadValue | src/components/GedcomImportExport.tsx:122-144 | NAME, PLAC, OCCU and NOTE take the text after the 7-character prefix; SEX maps the value; every `2 DATE` line overwrites dateOfBirth |
| GedcomImport.ReadLine | src/components/GedcomImportExport.tsx:106-145 | one line: an INDI header closes the open record (kept only if named) and opens an empty one; other tags fill the open record, if any |
| GedcomImport.ParseGedcom | src/components/GedcomImportExport.tsx:97-158 | the loop over the lines, plus the final flush, gives exactly the people the specification fold reads |
| GedcomImport.HandleImport | src/components/GedcomImportExport.tsx:160-162 | onImport is called iff at least one person was parsed, and with those people |
| GedcomImport.StepOther | src/components/GedcomImportExport.tsx:106-145 | a line no test picks up, and any tagged line before a record is open, leave the state unchanged |
| GedcomImport.PreambleIgnored | src/components/GedcomImportExport.tsx:104-145 | lines before the first INDI header change nothing |
| GedcomImport.ImportNumbered | src/components/GedcomImportExport.tsx:110-157 | the imported ids are `imported-0`, `imported-1`, … in emission order, and relationships are empty |
| GedcomImport.ImportIdsDistinct | src/components/GedcomImportExport.tsx:110-157 | no two imported people share an id |
| GedcomImport.ImportCount | src/components/GedcomImportExport.tsx:106-158 | at most one person per INDI header line |
| GedcomRoundTrip.ParseFormatted | src/components/GedcomImportExport.tsx:32-38 | a date written by the export (a real day, year of three or more digits) reads back as the same date |
| GedcomRoundTrip.ReadsSex | src/components/GedcomImportExport.tsx:30 | the SEX line written for a gender reads back as that gender, trans included (trans→U→trans) |
| GedcomRoundTrip.FamilyRecordsQuiet | src/components/GedcomImportExport.tsx:68-75 | FAM, HUSB and WIFE lines are ignored by the parser |
| GedcomRoundTrip.ReadRecord | src/components/GedcomImportExport.tsx:27-45 | reading one exported INDI record closes the previous record and leaves the person's fields open |
| GedcomRoundTrip.ImportExport | src/components/GedcomImportExport.tsx:18-158 | importing the export of people with safe text fields gives one person per exported person, in order |
| GedcomRoundTrip.RoundTrip | src/components/GedcomImportExport.tsx:27-158 | for non-empty names and text fields with no line feed and no whitespace as the last character: same count and order, equal name, gender, location, profession and biography (those not written come back empty); the date read back is the death date when there is one, else the birth date |
| ActivityLog.ReplaceById | app/page.tsx:130 | the list keeps its length |
| ActivityLog.ReplaceKeepsOthers | app/page.tsx:130 | entries with another id are unchanged, entries with the updated id become the update, and the ids stay in order |
| ActivityLog.ReplaceIdempotent | app/page.tsx:130 | replacing twice with the same record is replacing once |
| ActivityLog.ReplaceUnknown | src/App.tsx:45 | an update whose id nobody has leaves the list as it is |
| ActivityLog.FirstId | app/page.tsx:44 | the first imported person's id, or '' when nobody was imported |
| HomePage.LinkAll | app/page.tsx:166-183 | the mapped list keeps its length, and the new person keeps its id |
| HomePage.AddRelation | app/page.tsx:166-185 | exactly one person is appended, at the end, with the new id |
| HomePage.LinkAllMap | app/page.tsx:167-183 | the target gets the new id in the array the type names; everyone else is kept |
| HomePage.LinkAllNew | app/page.tsx:170-179 | the new person gains one personId entry per matching person, in the array the type mirrors, and nothing else |
| HomePage.AddRelationShape | app/page.tsx:155-185 | the new person has the form's name, date and gender; everyone whose id differs from personId is unchanged |
| HomePage.AddRelationLinks | app/page.tsx:170-184 | child: the target's children gain newId and the new person's parents are [personId]; parent mirrors this; spouse records both sides; any other type, sibling included, records nothing on either side |
| HomePage.AddRelationUnknown | app/page.tsx:166-184 | an unknown personId leaves everyone as they were and adds the new person with empty arrays |
| HomePage.Home.constructor | app/page.tsx:23-32 | starts with no people, no activities, no selection and logged out |
| HomePage.Home.HandlePersonUpdate | app/page.tsx:129-142 | people replaced by id, the update selected, one 'edited' activity prepended before the earlier ones |
| HomePage.Home.HandleAddRelation | app/page.tsx:144-196 | the map with its in-place updates of newPerson gives AddRelation's list; one 'added' activity for the new person is prepended |
| HomePage.Home.HandleGedcomImport | app/page.tsx:37-47 | imported people appended after the existing ones; one 'added' activity naming the first imported id, or '', is prepended |
| HomePage.Home.HandleLogout | app/page.tsx:288-293 | logged out, with people, activities and selection cleared |
| SrcApp.Reverse | src/App.tsx:78-80 | child↔parent; spouse and sibling are unchanged |
| SrcApp.ReverseInvolution | src/App.tsx:78-80 | the reverse of the reverse is the type itself |
| SrcApp.Attach | src/App.tsx:87-103 | the list keeps its length |
| SrcApp.AddRelation | src/App.tsx:70-105 | one more person than before |
| SrcApp.AddRelationShape | src/App.tsx:70-105 | the new person is last and has exactly one relationship; the person with id personId gets exactly `{type, newId}` appended at the end of its list, with nothing else changed; everyone else is unchanged |
| SrcApp.AddRelationSymmetric | src/App.tsx:75-99 | after an add, X lists N with type t, N lists X, and reversing N's type gives back t |
| SrcApp.App.constructor | src/App.tsx:18-20 | starts from the sample people and activities with no selection |
| SrcApp.App.HandlePersonUpdate | src/App.tsx:44-57 | people replaced by id, the update selected, one 'edited' activity prepended |
| SrcApp.App.HandleAddRelation | src/App.tsx:59-116 | people become AddRelation's list; one 'added' activity for the new person is prepended |
| SrcApp.App.HandleGedcomImport | src/App.tsx:134-145 | imported people appended after the existing ones; one activity referencing the first imported id, or '', is prepended |
| GenerationalChart.ResolveParents | app/components/GenerationalChart.tsx:33-36 | only people of the list, at most one per relationship |
| GenerationalChart.ResolveParentsExact | app/components/GenerationalChart.tsx:33-36 | a person is listed iff some parent-typed relationship resolves to them; other types and dangling ids are skipped |
| GenerationalChart.NextGenerationAppend | app/components/GenerationalChart.tsx:30-39 | the next generation of a concatenation is the concatenation of the next generations, so nothing is deduplicated |
| GenerationalChart.Expand | app/components/GenerationalChart.tsx:29-44 | at most the allowed number of further levels, none of them empty |
| GenerationalChart.AncestorsShape | app/components/GenerationalChart.tsx:25-46 | the first level is [person]; there are at most generations + 1 levels (5 for the default 4); every later level is non-empty |
| GenerationalChart.AncestorsLevels | app/components/GenerationalChart.tsx:29-44 | level k+1 is the in-order concatenation of the resolving parents of level k |
| GenerationalChart.ExpandStops | app/components/GenerationalChart.tsx:41 | fewer levels than allowed only when the last level has no resolving parent |
| GenerationalChart.Collect | app/components/GenerationalChart.tsx:30-39 | the forEach pushes exactly the next generation |
| GenerationalChart.GetAncestors | app/components/GenerationalChart.tsx:25-47 | the loop with its break computes exactly the ancestor levels |
| GenerationalChart.InitialSelection | app/components/GenerationalChart.tsx:21-23 | the first main user if there is one, else the first person; none only for an empty list |
| GenerationalChart.Reselect | app/components/GenerationalChart.tsx:194-196 | a chosen id that resolves selects the first person with that id; any other choice keeps the selection |
| GenerationalChart.ChildrenIn | app/components/GenerationalChart.tsx:87-89 | exactly the previous level's people who list the person as a parent |
| GenerationalChart.ConnectorsTo | app/components/GenerationalChart.tsx:91 | one connector from each child to the parent |
| GenerationalChart.LevelConnectors | app/components/GenerationalChart.tsx:85-91 | a connector of a level joins someone of that level to someone of the level before who lists them as a parent, and every such pair is drawn |
| GenerationalChart.Connectors | app/components/GenerationalChart.tsx:80-91 | the drawn connectors are exactly the (level-g person, level-(g−1) child listing them as parent) pairs, for g ≥ 1 |
| FamilyGraph.StrokeOpacity | app/components/FamilyGraph.tsx:191-204 | default opacity with an empty path; otherwise emphasised iff the link's ends appear consecutively in the path in either order, dimmed otherwise |
| FamilyGraph.OnPathReversed | app/components/FamilyGraph.tsx:197-201 | reading the path backwards lights the same links |
| FamilyGraph.OnPathEnds | app/components/FamilyGraph.tsx:197-201 | both ends of a lit link are on the path |
| FamilyGraph.HopsLit | app/components/FamilyGraph.tsx:163-204 | every hop of a found path lights the link it went along |
| FamilyGraph.GlowsIgnoresCase | app/components/FamilyGraph.tsx:100-101 | the glow ignores the letter case of both the name and the term |
| FamilyGraph.GlowsForPart | app/components/FamilyGraph.tsx:100-101 | a node glows for any non-empty piece of its own name |
| FamilyGraph.NodeLabel | app/components/FamilyGraph.tsx:109 | the label is the name's first space-separated token |
| FamilyGraph.MainUser | app/components/FamilyGraph.tsx:163 | the first node flagged main user, or none iff no node is |
| FamilyGraph.ClickPath | app/components/FamilyGraph.tsx:158-171 | a path is computed iff a main user exists and is not the clicked node; it runs from the main user to the clicked node and is a shortest path, or [] iff none exists |
| FamilyGraph.ClickLightsEnds | app/components/FamilyGraph.tsx:163-204 | a highlighted path lights a link at the main user and a link at the clicked person |
| Sidebar.Resolve | app/components/Sidebar.tsx:75-80 | only people of the list, at most one per id |
| Sidebar.ResolveAll | app/components/Sidebar.tsx:75-97 | when every id resolves, the result is those people in id order |
| Sidebar.ResolveDangling | app/components/Sidebar.tsx:75-97 | dangling ids contribute nothing |
| Sidebar.ResolveAppend | app/components/Sidebar.tsx:75-80 | resolving a concatenation of id lists resolves each part in turn, keeping list order |
| Sidebar.PushResolved | app/components/Sidebar.tsx:75-80 | the forEach appends exactly the resolving people, in id order |
| Sidebar.GetImmediateFamily | app/components/Sidebar.tsx:66-103 | parents and children are the resolving people of the id lists in order; spouse is the person for spouse[0] if it resolves, else null, and later spouse ids are never consulted; siblings are always empty |
| Sidebar.PersonActivities | app/components/Sidebar.tsx:49 | exactly the activities whose personId is the person's id |
| Sidebar.PersonActivitiesAppend | app/components/Sidebar.tsx:49 | the filter keeps the original order |
| Sidebar.PersonActivitiesAll | app/components/Sidebar.tsx:49 | nothing is dropped when every activity is about the person |
| Sidebar.OverlayLaws | app/components/Sidebar.tsx:41-53 | overlaying an empty form is the identity; overlaying a full copy gives that person; overlaying twice is overlaying once |
| Sidebar.SaveEdit | app/components/Sidebar.tsx:51-56 | the update is sent iff the edited name is non-empty and a date of birth and gender are set; it carries the form's name, date and gender |
| Sidebar.SaveUnedited | app/components/Sidebar.tsx:39-56 | saving the untouched form sends the person back unchanged when the name is non-empty |
| Sidebar.Panel.constructor | app/components/Sidebar.tsx:29-43 | closed forms, the add form at {child, '', '', male} and the edit form a copy of the person |
| Sidebar.Panel.ShowPerson | app/components/Sidebar.tsx:39-43 | a newly shown person is copied into the edit form, and nothing else changes |
| Sidebar.Panel.HandleSaveEdit | app/components/Sidebar.tsx:51-56 | sends SaveEdit's update and stops editing only when it fires |
| Sidebar.Panel.HandleAddRelation | app/components/Sidebar.tsx:58-64 | fires iff name and dateOfBirth are non-empty, sends (personId, form), then resets the form to {child, '', '', male} and closes it; otherwise nothing changes |
| EventsSidebar.CeilDiv | src/components/EventsSidebar.tsx:44 | `Math.ceil(a / b)`: the integer r with (r−1)·b < a ≤ r·b |
| EventsSidebar.CeilDivUnique | src/components/EventsSidebar.tsx:44 | the ceiling is the only such integer |
| EventsSidebar.DayCount | src/components/EventsSidebar.tsx:40-44 | the ceiling of the millisecond difference divided by 86,400,000 |
| EventsSidebar.Bucket | src/components/EventsSidebar.tsx:46-50 | 0 is Today and 1 is Tomorrow; any other count below 7, negative ones included, is 'In N days'; 7–29 is ⌈N/7⌉ weeks, between 1 and 5; 30 or more is ⌈N/30⌉ months, at least 1 |
| EventsSidebar.TomorrowAndToday | src/components/EventsSidebar.tsx:40-48 | an event on tomorrow's date, seen after midnight today, reads 'Tomorrow'; one on today's date, seen at midnight, reads 'Today' |
| EventsSidebar.GetEventIcon | src/components/EventsSidebar.tsx:22-29 | a gift iff birthday, a heart iff anniversary, a calendar for memorial and any other type |
| EventsSidebar.GetEventColor | src/components/EventsSidebar.tsx:31-38 | green, red and purple for birthday, anniversary and memorial; blue for any other type |
| EventsSidebar.ColorsDistinct | src/components/EventsSidebar.tsx:31-38 | the three event types get three distinct colours, none of them the default |
| EventsSidebar.SelectOnClick | src/components/EventsSidebar.tsx:90-101 | a click selects a person iff the event's personId resolves, and then the first person with that id |
| Timeline.SortedPeople | src/components/Timeline.tsx:12-14 | a permutation of the people, in non-decreasing birth instant; the input is a value and is not reordered |
| Timeline.SortedPeopleStable | src/components/Timeline.tsx:12-14 | people with equal birth dates keep their input order |
| Timeline.SortedPeopleUnique | src/components/Timeline.tsx:12-14 | any stable ordering by birth is the timeline |
| Timeline.GetAge | src/components/Timeline.tsx:24-26 | the current year minus the birth year |
| Timeline.AgesNonIncreasing | src/components/Timeline.tsx:12-26 | down the timeline the shown ages never increase |
| Notifications.RequestPermission | app/utils/notifications.ts:3-19 | true without prompting when granted, false without prompting when denied or unsupported; prompts only otherwise, and is then the user's answer |
| Notifications.Delay | app/utils/notifications.ts:33 | max(0, diff − 1 hour); inside the window 0 ≤ delay < diff |
| Notifications.TimerFor | app/utils/notifications.ts:22-35 | a timer iff 0 < event time − now ≤ 24 hours and the personId resolves; it carries that event, the first person with that id, and a delay below the time left |
| Notifications.ScheduleExactly | app/utils/notifications.ts:21-37 | a timer is started iff it is the timer of one of the events |
| Notifications.ScheduledTimers | app/utils/notifications.ts:28-33 | every timer started is for an event in the window whose person exists, and fires before the event |
| Notifications.ScheduleEventNotifications | app/utils/notifications.ts:21-37 | the loop starts exactly the scheduled timers, in event order |
| Notifications.ShowNotification | app/utils/notifications.ts:39-53 | shown iff permission is granted; title from the event, tag the event id; body the description when non-empty, else the default naming the person; icon the photo or the default |
| Notifications.BirthdayEvent | app/utils/notifications.ts:58-65 | id `birthday-<id>`, a birthday for that person, dated today |
| Notifications.BirthdayNotification | app/utils/notifications.ts:55-65 | with permission, the tag is `birthday-<id>` and the body names the person and the year-difference age; without it nothing is shown |

## Left out

- `app/hooks/useGedcom.ts` is not part of this model. `app/page.tsx` takes its export and import from that hook. The GEDCOM code modelled is `src/components/GedcomImportExport.tsx`, and the `app/page.tsx` import callback is modelled on the people list it receives.
- `src/utils/graphUtils.ts` and `src/utils/notifications.ts` are not part of this model. `src/App.tsx` imports them. The `app/utils` versions are modelled.
- JavaScript `Date` semantics:
  - ISO string parsing, `toISOString`, time zones and the `toLocaleDateString` locale are not modelled.
  - The export's `toLocaleDateString()` is modelled as the en-US `M/D/YYYY` form. The import's `new Date(s)` is modelled as a parser of that form only, with two-digit years mapped to 1950–2049. Any other text counts as unreadable and becomes 1900-01-01.
  - Event dates are whole days. `showBirthdayNotification`'s `new Date().toISOString()` keeps only today's date.
- `averageAge` is a `real` with an explicit empty case, not a float.
- HTTP routes, SQLite, migrations, authentication, `fetch`, `localStorage` and `handleLogin` are left out. These are I/O and foreign calls. Only the logout state change is modelled.
- d3 layout, force simulation, drag, zoom and polar coordinates are left out. These are floating-point drawing. Only the connector selection of the generational chart and the opacity, glow and label rules of the graph are modelled.
- Timers (`setTimeout`), the Notification API, Blob/FileReader download and upload, `alert` and `console` are left out. Timers and notifications become returned values.
- Chart.js dashboard, header, legend, toast and tooltip components are left out as presentation.
- Unicode case folding is left out. `Text.Lower` lowers only A–Z.
- HomePage.Home.HandleAddRelation: the form's `type` is any string, but `gender` is taken as one of the three genders. The source's `as` cast would let any string through.
- SrcApp.RelationForm: the relation type is one of the four typed relationships. The source passes any string through `as any`, and the side panel offers only these four.
- GedcomImport.ParseDate: dates written in other GEDCOM forms (such as `DD MON YYYY`) are not parsed as a browser would; they read as unreadable.
- Statistics.TallyExact: names that are properties of `Object.prototype` (`constructor`, `toString`, `__proto__`, `hasOwnProperty`, …) are counted like any other name. In the source, `acc[name] || 0` reads the inherited value for them: `constructor` and `toString` get a string count instead of a number, and `__proto__` never becomes an own key of the counts object.
- Statistics.CommonNamesCounts: the counts and the number of entries assume no name is a property of `Object.prototype`, for the reason given for Statistics.TallyExact.
- Statistics.CommonNamesTop: the comparison of counts assumes no name is a property of `Object.prototype`, for the reason given for Statistics.TallyExact.
- HomePage.Home.HandleGedcomImport: `app/page.tsx` calls `uuidv4` (lines 40, 135, 150-152 and 189) but never imports it (lines 3-20; compare `src/App.tsx:15`). As written, this callback throws after `setPeople` and before the activity is logged. The model follows the evident intent: a fresh id comes from a parameter.
- HomePage.Home.HandlePersonUpdate: for the same missing `uuidv4` import, the source throws after `setPeople` and `setSelectedPerson` and before the activity is logged. The model logs the activity.
- HomePage.Home.HandleAddRelation: for the same missing `uuidv4` import, the source throws at line 150, before any state changes. The model performs the update the handler is written to do.
- HomePage.Home.HandlePersonUpdate and HomePage.Home.HandleAddRelation: `app/page.tsx:13` imports `Sidebar` from `lucide-react`, so the `<Sidebar>` rendered at lines 331-339 is an icon, and neither handler is reachable from the page as written. The model follows the evident intent that the side panel calls them.
- GenerationalChart.ResolveParents, GenerationalChart.GetAncestors and GenerationalChart.ChildrenIn: `app/components/GenerationalChart.tsx:5` takes the app's `Person`, which has no `relationships` (`app/types/FamilyTree.ts:17-19`, `app/api/family/route.ts:25-27`), so `p.relationships.filter` at line 33 throws on the app's own data. The model gives the chart people with typed relationships, as the component is written to read them.
