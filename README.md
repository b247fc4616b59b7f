# Video course portal: player store, shortcuts, breadcrumbs, seeding

A Dafny model of the logic of a small video-course portal (a Next.js
application). It covers five parts of the code:

- **Player store** (`player_store.dfy`). There is one store per video player.
  It tracks whether the video is playing, the current time, whether the user
  has pressed play yet, and whether a Vimeo player is attached. The first
  play/pause toggle asks the attached player to seek 6 seconds in, past the
  intro animation. The store is a `class` whose methods update its fields.
  Each seek the player is asked for goes into a ghost log. A pure
  `PlayerState` value with `Step`/`Run` over a sequence of calls states the
  at-most-once intro skip.
- **Keyboard shortcuts** (`keyboard_shortcuts.dfy`). The
  `useKeyboardShortcuts` hook works in three steps:
  - It turns each key combination into a map key: the key name, then a
    `true`/`false` word for each of alt, ctrl, meta and shift, joined by `,`.
    A modifier left out counts as `false`.
  - It builds a `Map` from the bindings, where a later binding for the same
    key replaces an earlier one.
  - Its `keydown` listener calls the matching handler and, by default, calls
    `preventDefault` on the event.

  The map key is proved to be injective on the combination it encodes, by a
  decoder that reads the key back.
- **Player key bindings** (`keyboard_controls.dfy`). These are the five
  bindings the player installs: `f`, space, `esc`, and the right and left
  arrows.
- **Breadcrumbs** (`breadcrumbs.dfy`, `char_classes.dfy`):
  - The path is cut at the first `?`, split at `/` and emptied of empty
    segments.
  - Each segment becomes a crumb with the path up to it and a title-cased
    text.
  - The first crumb, the dashboard, is dropped.
  - JavaScript `split` is modelled exactly: splitting `""` gives `[""]`.
  - Title casing follows the `\w\S*` pattern: the first letter of each word
    is upper-cased and the rest lower-cased.
- **Progress percentage** (`derived_state.dfy`): `currentTime / duration *
  100`, or 0 when the duration is missing or zero.
- **Seed script** (`seed_titles.dfy`, `seed.dfy`):
  - Course names lose a leading `NN.` number and the white space after it.
  - Chapter titles keep the text after the first `" - "`. When a title has
    no `" - "`, `indexOf` gives -1 and the title loses its first two
    characters; `SeedTitles.ChapterTitleWithoutSeparator` proves this
    behaviour of the code as written.
  - Video titles lose everything up to one character past the first
    occurrence of the chapter title.
  - Courses are then found by name or created, chapters are found by (title,
    course) or created, and videos are upserted by id.
  - The database is a `class` with the three tables and an id counter. Its
    seeding methods are proved equal to the pure function `SeedAll`. Lemmas
    about `SeedAll` show that record ids stay unique and that existing
    records are kept. They also give the exact sets of course and chapter
    keys afterwards, and show that each video ends with its last upsert.

`wrappers.dfy` holds the `Option` type. An optional TypeScript field, and
the value a `Map` lookup may miss, are both modelled as `Option`.

## Model

| member | source | states |
|---|---|---|
| PlayerStore.Initial | src/components/VideoPlayer/store.tsx:35-37 | definition of the fresh state; its properties are IntroSeekOnce and IntroSkippedAtMostOnce |
| PlayerStore.Toggle | src/components/VideoPlayer/store.tsx:38-44 | definition of `togglePlayPause` on values; its properties are ToggleTwice and ToggleSeeks |
| PlayerStore.AttachPlayer | src/components/VideoPlayer/store.tsx:45 | definition of `setPlayer` on values; its property is ShiftPastNonToggle |
| PlayerStore.SetTime | src/components/VideoPlayer/store.tsx:46 | definition of `setCurrentTime` on values; its property is SetTimeOnlyTime |
| PlayerStore.Step | src/components/VideoPlayer/store.tsx:38-46 | definition of one call to the store; its properties are NoSeekAfterFirstToggle and ShiftPastNonToggle |
| PlayerStore.Run | src/components/VideoPlayer/store.tsx:38-46 | definition of a sequence of calls; its properties are NoSeekAfterFirstToggle, IntroSeekOnce and IntroSkippedAtMostOnce |
| PlayerStore.Store.constructor | src/components/VideoPlayer/store.tsx:34-37 | a new store is paused at time 0, has not been played, has no player and has issued no seek |
| PlayerStore.Store.TogglePlayPause | src/components/VideoPlayer/store.tsx:38-44 | `playing` is negated and `firstTimePlaying` becomes false; a seek to `secondsToSkip` is issued exactly when this was the first toggle and a player was attached; time and player are unchanged |
| PlayerStore.Store.SetPlayer | src/components/VideoPlayer/store.tsx:45 | a player is attached and nothing else changes |
| PlayerStore.Store.SetCurrentTime | src/components/VideoPlayer/store.tsx:46 | the time becomes exactly the argument, unclamped, and nothing else changes |
| PlayerStore.ToggleTwice | src/components/VideoPlayer/store.tsx:43 | two toggles restore `playing`, leave `firstTimePlaying` false, and the second one issues no seek |
| PlayerStore.ToggleSeeks | src/components/VideoPlayer/store.tsx:25-43 | one toggle adds one seek, to 6 seconds, when the store was fresh and had a player, and otherwise none; the earlier seeks are kept |
| PlayerStore.NoSeekAfterFirstToggle | src/components/VideoPlayer/store.tsx:40-43 | once the store has been toggled, no sequence of calls issues another seek |
| PlayerStore.IntroSeekOnce | src/components/VideoPlayer/store.tsx:38-46 | from a fresh state, a sequence of calls adds one 6-second seek when its first toggle comes after a player was attached, and none otherwise |
| PlayerStore.ShiftPastNonToggle | src/components/VideoPlayer/store.tsx:45-46 | a `setPlayer` or `setCurrentTime` call before the first toggle only decides whether a player is attached by then |
| PlayerStore.IntroSkippedAtMostOnce | src/components/VideoPlayer/store.tsx:25-46 | over the whole life of a store, at most one seek is issued, always to 6 seconds, and one is issued exactly when a player was attached before the first toggle |
| PlayerStore.SetTimeOnlyTime | src/components/VideoPlayer/store.tsx:46 | setting the time changes the time field and no other field |
| KeyboardShortcuts.MapKey | src/hooks/use-keyboard-shortcuts.ts:50-53 | definition of `createKeybindingMapKey`; its properties are DecodeOfMapKey, MapKeyInjective and AbsentIsFalse |
| KeyboardShortcuts.DecodeFlagAppended | src/hooks/use-keyboard-shortcuts.ts:52 | the last `,true`/`,false` word of a map key reads back as the flag that produced it |
| KeyboardShortcuts.DecodeOfMapKey | src/hooks/use-keyboard-shortcuts.ts:50-53 | decoding a map key gives back the key name and the four truth values it was built from |
| KeyboardShortcuts.MapKeyInjective | src/hooks/use-keyboard-shortcuts.ts:50-53 | two combinations get the same map key if and only if their key and their four truthy modifiers agree |
| KeyboardShortcuts.AbsentIsFalse | src/hooks/use-keyboard-shortcuts.ts:47-52 | a modifier left out of a combination counts as not pressed, so `{ key }` has the same map key as the event with no modifier |
| KeyboardShortcuts.Entries | src/hooks/use-keyboard-shortcuts.ts:21-22 | definition of the key/handler pairs; its property is DispatchExact |
| KeyboardShortcuts.MapOf | src/hooks/use-keyboard-shortcuts.ts:23-25 | definition of `new Map(entries)`; its properties are MapOfKeys and MapOfLastWins |
| KeyboardShortcuts.BuildMap | src/hooks/use-keyboard-shortcuts.ts:21-25 | definition of `keyBindingsMap`; its property is DispatchExact |
| KeyboardShortcuts.Lookup | src/hooks/use-keyboard-shortcuts.ts:28-29 | definition of the map lookup for an event; its property is DispatchExact |
| KeyboardShortcuts.MapOfKeys | src/hooks/use-keyboard-shortcuts.ts:23-25 | the map holds a key exactly when some binding produces it |
| KeyboardShortcuts.MapOfLastWins | src/hooks/use-keyboard-shortcuts.ts:23-25 | the handler a key maps to is that of the last binding producing the key |
| KeyboardShortcuts.DispatchExact | src/hooks/use-keyboard-shortcuts.ts:21-29 | an event finds a handler if and only if some binding matches it exactly, and the one found belongs to the last matching binding |
| KeyboardShortcuts.KeyDown.constructor | src/hooks/use-keyboard-shortcuts.ts:27 | a dispatched event starts with its default not prevented |
| KeyboardShortcuts.KeyDown.PreventDefault | src/hooks/use-keyboard-shortcuts.ts:33 | after the call, the event's default is prevented and the event is otherwise the same |
| KeyboardShortcuts.Listener.constructor | src/hooks/use-keyboard-shortcuts.ts:12-25 | the element defaults to `document.body` and `preventDefault` to true; the map is built from the bindings and no handler has run yet |
| KeyboardShortcuts.Listener.HandleKeyDown | src/hooks/use-keyboard-shortcuts.ts:27-36 | on a matching event, the found handler runs once and the default is prevented when the listener says so; otherwise nothing runs and the event is untouched |
| KeyboardControls.PlayerBindings | src/components/VideoPlayer/use-keyboard-controls.ts:13-19 | definition of the five bindings; its property is BindingsDistinct |
| KeyboardControls.PlayerCommand | src/components/VideoPlayer/use-keyboard-controls.ts:12-21 | definition of the command an event reaches; its properties are DispatchesIffUnmodifiedBoundKey, UnmodifiedKeysDispatch, EscapeDispatchesNothing and ModifiedDispatchesNothing |
| KeyboardControls.BindingsDistinct | src/components/VideoPlayer/use-keyboard-controls.ts:13-19 | no two of the five player bindings share a map key |
| KeyboardControls.DispatchesIffUnmodifiedBoundKey | src/components/VideoPlayer/use-keyboard-controls.ts:13-19 | an event reaches a player command if and only if it presses one of the five bound keys with no modifier |
| KeyboardControls.UnmodifiedKeysDispatch | src/components/VideoPlayer/use-keyboard-controls.ts:14-18 | `f`, space, `esc`, right and left arrow, pressed alone, reach enter-fullscreen, toggle, exit-fullscreen, seek forward 5 and seek backward 5 |
| KeyboardControls.EscapeDispatchesNothing | src/components/VideoPlayer/use-keyboard-controls.ts:16 | a key reported as `"Escape"` reaches no command, because only the literal name `"esc"` is bound |
| KeyboardControls.ModifiedDispatchesNothing | src/components/VideoPlayer/use-keyboard-controls.ts:13-19 | a key pressed with any modifier reaches no command |
| KeyboardControls.UseKeyboardControls | src/components/VideoPlayer/use-keyboard-controls.ts:12-21 | the hook installs exactly the five bindings, on the player's element or on `document.body` while there is none, with defaults prevented |
| DerivedState.ProgressPercentage | src/components/VideoPlayer/use-derived-state.ts:6 | 0 when the duration is missing or zero, and otherwise the value whose product with the duration is 100 times the current time |
| DerivedState.QuarterWay | src/components/VideoPlayer/use-derived-state.ts:6 | 30 seconds into a 120-second video is 25 percent |
| DerivedState.ProgressInRange | src/components/VideoPlayer/use-derived-state.ts:6 | with time between 0 and a positive duration, the percentage lies between 0 and 100, and is 100 exactly at the end |
| DerivedState.ProgressMonotone | src/components/VideoPlayer/use-derived-state.ts:6 | a later time never shows a smaller percentage |
| Breadcrumbs.GenerateBreadcrumbs | src/components/Breadcrumbs.tsx:82-104 | definition of `generateBreadcrumbs`; its properties are QueryIgnored, NormalizedSameCrumbs, EmptySegmentsDropped and ChapterCrumb |
| Breadcrumbs.StripQuery | src/components/Breadcrumbs.tsx:84 | definition of the path without its query; its property is QueryIgnored |
| Breadcrumbs.Segments | src/components/Breadcrumbs.tsx:88-90 | definition of the path segments; its properties are SegmentsClean, SegmentsOfPlainPath and NormalizedSameCrumbs |
| Breadcrumbs.NonEmpty | src/components/Breadcrumbs.tsx:90 | definition of the filter; its properties are NonEmptyParts, NonEmptyKeeps and NonEmptyAppend |
| Breadcrumbs.Join | src/components/Breadcrumbs.tsx:97 | definition of `join`; its properties are JoinOfSplit, SplitOfJoin, JoinSnoc and JoinNoChar |
| Breadcrumbs.AllCrumbs | src/components/Breadcrumbs.tsx:94-101 | definition of the crumb for every segment; its properties are CrumbAt and HrefExtends |
| Breadcrumbs.CrumbsOf | src/components/Breadcrumbs.tsx:94-103 | definition of the crumbs without the first; its properties are CrumbCount, CrumbAt, HrefExtends, LastHrefIsPath and TwoSegmentCrumbs |
| Breadcrumbs.Upper | src/components/Breadcrumbs.tsx:109 | definition of `toUpperCase` on one character; its property is CaseKeepsClass |
| Breadcrumbs.Lower | src/components/Breadcrumbs.tsx:109 | definition of `toLowerCase` on one character; its properties are CaseKeepsClass and LowerAllIdempotent |
| Breadcrumbs.Split | src/components/Breadcrumbs.tsx:84-89 | `split` always yields at least one part, and no part holds the separator |
| Breadcrumbs.SplitKeepsChars | src/components/Breadcrumbs.tsx:84-89 | every character of every part comes from the input |
| Breadcrumbs.NonEmptyParts | src/components/Breadcrumbs.tsx:90 | the filter keeps only non-empty parts, each one taken from the input |
| Breadcrumbs.LowerAll | src/components/Breadcrumbs.tsx:109 | `toLowerCase` maps every character and keeps the length |
| Breadcrumbs.RunLength | src/components/Breadcrumbs.tsx:108 | `\S*` takes the longest prefix without white space |
| Breadcrumbs.ToTitleCase | src/components/Breadcrumbs.tsx:106-111 | title casing keeps the length of the string |
| Breadcrumbs.SplitNoSeparator | src/components/Breadcrumbs.tsx:84-89 | a string without the separator splits into itself alone |
| Breadcrumbs.SplitAtFirst | src/components/Breadcrumbs.tsx:84-89 | splitting peels off the text before the first separator |
| Breadcrumbs.JoinOfSplit | src/components/Breadcrumbs.tsx:89-97 | joining the parts of a split with the same separator gives back the string |
| Breadcrumbs.SplitOfJoin | src/components/Breadcrumbs.tsx:89-97 | splitting a join of separator-free parts gives back the parts |
| Breadcrumbs.JoinSnoc | src/components/Breadcrumbs.tsx:97 | joining one more part appends the separator and that part |
| Breadcrumbs.NonEmptyKeeps | src/components/Breadcrumbs.tsx:90 | the filter leaves a sequence of non-empty parts as it is |
| Breadcrumbs.NonEmptyAppend | src/components/Breadcrumbs.tsx:90 | filtering distributes over concatenation |
| Breadcrumbs.QueryIgnored | src/components/Breadcrumbs.tsx:83-84 | a query string does not change the breadcrumbs |
| Breadcrumbs.SegmentsClean | src/components/Breadcrumbs.tsx:84-90 | every segment is non-empty and holds neither `/` nor `?` |
| Breadcrumbs.NormalizedSameCrumbs | src/components/Breadcrumbs.tsx:84-103 | the path rebuilt from the segments has the same segments and the same breadcrumbs as the original |
| Breadcrumbs.JoinNoChar | src/components/Breadcrumbs.tsx:97 | a join holds a character only if a part or the separator does |
| Breadcrumbs.CrumbCount | src/components/Breadcrumbs.tsx:94-103 | for any list of segments there is one crumb per segment but the first, and none for an empty list |
| Breadcrumbs.CrumbAt | src/components/Breadcrumbs.tsx:94-103 | crumb i links to `/` and the first i+2 segments joined by `/`, and shows segment i+1 title-cased |
| Breadcrumbs.HrefExtends | src/components/Breadcrumbs.tsx:97 | each crumb's link is the previous link plus `/` and one segment, and is strictly longer |
| Breadcrumbs.LastHrefIsPath | src/components/Breadcrumbs.tsx:94-103 | the last crumb links to `/` followed by all the segments joined by `/`, the current page's cleaned-up path |
| Breadcrumbs.SegmentsOfPlainPath | src/components/Breadcrumbs.tsx:84-90 | `/a/b` has the segments `a` and `b` |
| Breadcrumbs.EmptySegmentsDropped | src/components/Breadcrumbs.tsx:86-90 | doubled and trailing slashes are ignored: `//a//b/` has the segments and the breadcrumbs of `/a/b` |
| Breadcrumbs.TwoSegmentCrumbs | src/components/Breadcrumbs.tsx:94-103 | a two-segment path has a single crumb, for its second segment |
| Breadcrumbs.ChapterCrumb | src/components/Breadcrumbs.tsx:94-103 | on `/course/chapter` the only crumb links to the whole path and shows the title-cased chapter |
| Breadcrumbs.CaseKeepsClass | src/components/Breadcrumbs.tsx:108-109 | changing case never turns a character into or out of white space or a word character, and is idempotent |
| Breadcrumbs.TitleCaseKeepsSpace | src/components/Breadcrumbs.tsx:106-111 | title casing leaves white space where it was and creates none |
| Breadcrumbs.RunLengthOfPrefix | src/components/Breadcrumbs.tsx:108 | a word followed by white space or the end is matched whole by `\S*` |
| Breadcrumbs.TitleCaseIdempotent | src/components/Breadcrumbs.tsx:106-111 | title casing an already title-cased string changes nothing |
| Breadcrumbs.LowerAllIdempotent | src/components/Breadcrumbs.tsx:109 | lower-casing an already lower-cased string changes nothing |
| Breadcrumbs.TitleCaseOfPieces | src/components/Breadcrumbs.tsx:107-110 | a word followed by white space or the end is title-cased on its own, and the rest separately |
| Breadcrumbs.TitleCaseWordAgain | src/components/Breadcrumbs.tsx:106-111 | title casing twice treats the first word as title casing once does, upper first letter and lower rest, and the rest recursively |
| Breadcrumbs.TitleCaseOfWord | src/components/Breadcrumbs.tsx:107-110 | a word starting with a word character becomes its first character upper-cased and the rest lower-cased |
| SeedTitles.IndexOf | prisma/seed.ts:54-74 | `indexOf` gives the first position of the needle, or -1 when it does not occur |
| SeedTitles.SliceFrom | prisma/seed.ts:53-79 | `slice(start, length)` gives the suffix from `start`, or `""` past the end |
| SeedTitles.DigitRun | prisma/seed.ts:39 | `[0-9]+` takes the longest prefix of digits |
| SeedTitles.SpaceRun | prisma/seed.ts:39 | `\s+` takes the longest prefix of white space |
| SeedTitles.NumberPrefixLength | prisma/seed.ts:39 | the matched `^[0-9]+\.\s+` prefix is never longer than the name |
| SeedTitles.CourseName | prisma/seed.ts:39 | the course name is a suffix of the raw name |
| SeedTitles.ChapterTitle | prisma/seed.ts:53-56 | the chapter title is never longer than the raw one |
| SeedTitles.VideoTitle | prisma/seed.ts:74-80 | the video title is never longer than the raw one |
| SeedTitles.DigitRunOf | prisma/seed.ts:39 | `[0-9]+` matches a run of digits whole when a non-digit or the end follows |
| SeedTitles.SpaceRunOf | prisma/seed.ts:39 | `\s+` matches a run of white space whole when a non-space or the end follows |
| SeedTitles.NumberPrefixMatches | prisma/seed.ts:39 | a prefix the matcher measures as non-empty is digits, a dot and white space |
| SeedTitles.CourseNameStripsNumber | prisma/seed.ts:39 | digits, a dot and white space at the start are removed, and exactly the white space is removed |
| SeedTitles.CourseNameKeepsOthers | prisma/seed.ts:39 | a name with no numbered prefix is kept as it is |
| SeedTitles.CourseNameExample | prisma/seed.ts:39 | `"01. Salsa"` becomes `"Salsa"` |
| SeedTitles.ChapterTitleAfterSeparator | prisma/seed.ts:53-56 | the chapter title is the text after the first `" - "` |
| SeedTitles.ChapterTitleWithoutSeparator | prisma/seed.ts:53-56 | without `" - "` the chapter title loses its first two characters |
| SeedTitles.ChapterTitleExample | prisma/seed.ts:53-56 | `"1 - Basics"` becomes `"Basics"` |
| SeedTitles.VideoTitleAfterChapter | prisma/seed.ts:74-80 | the video title is what follows the first occurrence of the chapter title, less one character |
| SeedTitles.VideoTitleWithoutChapter | prisma/seed.ts:74-80 | a video title that does not mention the chapter title is kept |
| Seed.FindOrCreateCourse | prisma/seed.ts:41-50 | definition of finding or creating a course; its properties are FindOrCreateCourseKeeps and FollowStable |
| Seed.FindOrCreateChapter | prisma/seed.ts:58-71 | definition of finding or creating a chapter; its properties are FindOrCreateChapterKeeps and FollowStable |
| Seed.UpsertVideo | prisma/seed.ts:82-93 | definition of `upsert`; its property is FollowUpsert |
| Seed.SeedVideos | prisma/seed.ts:73-94 | definition of the video loop; its properties are SeedVideosKeeps, SeedVideosFollow and SeedVideosStep |
| Seed.SeedChapter | prisma/seed.ts:53-94 | definition of one chapter step; its properties are SeedChapterKeeps and SeedChapterFollow |
| Seed.SeedChapters | prisma/seed.ts:52-95 | definition of the chapter loop; its properties are SeedChaptersKeeps, SeedChaptersFollow and SeedChaptersStep |
| Seed.SeedCourse | prisma/seed.ts:39-95 | definition of one course step; its properties are SeedCourseKeeps and SeedCourseFollow |
| Seed.SeedAll | prisma/seed.ts:38-96 | definition of the whole seeding loop; its properties are SeedAllKeeps, SeedAllChapters, LastUpsertWins and SeedAllStep |
| Seed.FindOrCreateCourseKeeps | prisma/seed.ts:41-50 | finding or creating a course keeps ids unique and every record, adds exactly the name, leaves chapters and videos alone, and returns the name's id |
| Seed.FindOrCreateChapterKeeps | prisma/seed.ts:58-71 | the same for a chapter, keyed by its title and course id |
| Seed.SeedVideosKeeps | prisma/seed.ts:73-94 | upserting videos changes only the videos table |
| Seed.ExtendsTransitive | prisma/seed.ts:38-96 | keeping every record is preserved over successive steps |
| Seed.SeedChapterKeeps | prisma/seed.ts:53-94 | seeding one chapter keeps ids unique and records kept, leaves courses alone, and adds exactly that chapter under the course |
| Seed.SeedChaptersKeeps | prisma/seed.ts:52-95 | seeding a course's chapters keeps ids unique and records kept, leaves courses alone, and adds exactly the chapters of the input under that course |
| Seed.SeedCourseKeeps | prisma/seed.ts:38-95 | seeding one course adds exactly its cleaned-up name and its chapters |
| Seed.SeedAllKeeps | prisma/seed.ts:38-96 | seeding keeps ids unique and every old record, and the courses afterwards are the old ones plus the input's cleaned-up names |
| Seed.InputChapterKeysStable | prisma/seed.ts:58-63 | the chapter keys of the input do not change when more courses are added |
| Seed.SeedAllChapters | prisma/seed.ts:38-96 | the chapters afterwards are the old ones plus each input chapter under its course's id |
| Seed.FollowStable | prisma/seed.ts:41-71 | finding or creating records does not disturb what the videos table says |
| Seed.FollowUpsert | prisma/seed.ts:82-93 | an upsert sets its id to its title and chapter and leaves every other video alone |
| Seed.SeedVideosFollow | prisma/seed.ts:73-94 | a chapter's videos are upserted in order under that chapter, one upsert each |
| Seed.SeedChapterFollow | prisma/seed.ts:53-94 | one chapter's upserts go to the chapter found or created for its cleaned-up title |
| Seed.SeedChaptersFollow | prisma/seed.ts:52-95 | a course's chapters perform their upserts in order |
| Seed.SeedCourseFollow | prisma/seed.ts:38-95 | one course's upserts go to chapters under the course found or created for its name |
| Seed.LastUpsertWins | prisma/seed.ts:38-96 | afterwards, videos the input does not mention keep their rows, and every video of the input has the title and chapter of its last upsert |
| Seed.SeedVideosStep | prisma/seed.ts:73-94 | seeding one more video is one more upsert after the earlier ones |
| Seed.SeedChaptersStep | prisma/seed.ts:52-95 | seeding one more chapter is one more chapter step after the earlier ones |
| Seed.SeedAllStep | prisma/seed.ts:38-96 | seeding one more course is one more course step after the earlier ones |
| Seed.Database.constructor | prisma/seed.ts:32 | the database starts with the given tables |
| Seed.Database.FindCourse | prisma/seed.ts:41-43 | `findFirst` finds a course exactly when one has that name, and returns its id |
| Seed.Database.CreateCourse | prisma/seed.ts:45-49 | `create` adds the name under a fresh id and changes nothing else |
| Seed.Database.FindChapter | prisma/seed.ts:58-63 | `findFirst` finds a chapter exactly when one has that title and course, and returns its id |
| Seed.Database.CreateChapter | prisma/seed.ts:65-70 | `create` adds the chapter under a fresh id and changes nothing else |
| Seed.Database.FindOrCreateCourseRecord | prisma/seed.ts:41-50 | the lookup followed, when it misses, by a create leaves the tables and returns the id as `FindOrCreateCourse` says |
| Seed.Database.FindOrCreateChapterRecord | prisma/seed.ts:58-71 | the same for a chapter, as `FindOrCreateChapter` says |
| Seed.Database.UpsertVideo | prisma/seed.ts:82-93 | `upsert` sets the video's title and chapter, whether it existed or not, and changes nothing else |
| Seed.Database.SeedChapterVideos | prisma/seed.ts:73-94 | the video loop leaves the tables as `SeedVideos` says |
| Seed.Database.SeedCourseChapters | prisma/seed.ts:52-95 | the chapter loop leaves the tables as `SeedChapters` says |
| Seed.Database.RunSeed | prisma/seed.ts:38-96 | the whole seeding loop leaves the tables as `SeedAll` says |

## Left out

- Rendering: the React components (the breadcrumb `<nav>`, the player UI) and the zustand, immer and devtools middleware are not modelled. The store's `set` updates are modelled as direct field assignments.
- The Vimeo player object: it is a `hasPlayer` flag, and its `seekTo` calls are a ghost log of seek targets. Which player is attached is not tracked.
- Registering and removing the `keydown` listener, its capture phase, and React's effect re-runs are not modelled. The model starts from an installed listener.
- Handlers are abstract values. That a handler ran is a ghost log entry, and what the handler does to the player is not modelled. The `State` of `store.tsx` (src/components/VideoPlayer/store.tsx:15-23) defines only `playing`, `firstTimePlaying`, `currentTime`, `player`, `togglePlayPause`, `setPlayer` and `setCurrentTime`. It has no `seekForward`, `seekBackward`, `enterFullscreen`, `exitFullscreen` or `playerDomElement`. So the player's binding table is modelled on abstract commands, and what these missing actions would do is outside the model.
- KeyboardShortcuts.Listener.HandleKeyDown: the listener runs a handler when the key is in the map (`mapKey in bindingsMap`). The code tests `if (keyBinding)` (src/hooks/use-keyboard-shortcuts.ts:30), which is the handler's truthiness. The two agree only when every bound handler is a function, and the model assumes that.
- KeyboardControls.UnmodifiedKeysDispatch and KeyboardControls.DispatchesIffUnmodifiedBoundKey state what the binding table promises, not what happens at runtime with this store. `enterFullscreen` and `exitFullscreen` are read from a `State` that lacks them (src/components/VideoPlayer/use-keyboard-controls.ts:8-9), so they are `undefined`. Pressing `f` or `esc` then runs nothing and leaves the default alone. The arrow-key closures are functions, so they run, but `seekForward` and `seekBackward` are also `undefined`, so the closures throw before `preventDefault` is reached. None of this runtime failure is modelled.
- The progress percentage works on mathematical reals. IEEE rounding, NaN and infinities are not modelled. A negative duration is truthy in JavaScript and is divided by, and the model does the same. `store.tsx` has no `duration` field, so the duration is a parameter.
- Breadcrumbs.Upper and Breadcrumbs.Lower change only ASCII letters. The Unicode case mapping of `toUpperCase` and `toLowerCase` is not modelled, and neither are strings as UTF-16 code units.
- Breadcrumbs.ToTitleCase only states that the length is kept. Its other properties are separate lemmas: TitleCaseKeepsSpace, TitleCaseIdempotent and TitleCaseOfWord.
- SeedTitles.ChapterTitle and SeedTitles.VideoTitle: their own ensures only bound the length. What they return is stated by the lemmas beside them.
- Seed: reading and parsing `course-data.json`, the zod validation, `console.log`, `$disconnect` and the error exit are not modelled. The seeding starts from already-validated data.
- Seed: the database is three in-memory maps with one counter handing out ids. How the real database numbers records, and any concurrent writer, are not modelled.
- Seed: the source writes the cleaned-up titles back into the parsed input objects. The model keeps them in local variables, because nothing reads the input again afterwards.
- Seed: the `create` and `update` branches of `upsert` write the same title and chapter, so the model uses one map update for both.
- The rest of the application is outside the model: pages, API routers, authentication, auto-hiding controls and the other components.
- `store.tsx` has no duration, loop, playback-rate, fullscreen or end-of-video state, so none is modelled.
