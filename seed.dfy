/**
 * The seeding loop of prisma/seed.ts, against in-memory tables in place of
 * the database: courses are found by name or created, chapters are found by
 * (title, course) or created, and videos are upserted by id.
 */
module Seed {
  import opened Wrappers
  import opened SeedTitles

  // ---- the input file ----

  datatype VideoData = VideoData(id: string, title: string)
  datatype ChapterData = ChapterData(title: string, videoData: seq<VideoData>)
  datatype CourseData = CourseData(courseName: string, content: seq<ChapterData>)

  // ---- the tables ----

  /** A stored video: its title and the id of its chapter. */
  datatype VideoRow = VideoRow(title: string, chapterId: nat)

  /**
   * Courses by name, chapters by (title, course id) and videos by id, with
   * the next id the database hands out for a created course or chapter.
   */
  datatype Tables = Tables(
    courses: map<string, nat>,
    chapters: map<(string, nat), nat>,
    videos: map<string, VideoRow>,
    nextId: nat)

  /** Every id is one that was handed out, and no id names two records of a table. */
  ghost predicate Valid(t: Tables) {
    && (forall n :: n in t.courses ==> t.courses[n] < t.nextId)
    && (forall k :: k in t.chapters ==> t.chapters[k] < t.nextId)
    && (forall a, b :: a in t.courses && b in t.courses && a != b ==> t.courses[a] != t.courses[b])
    && (forall a, b :: a in t.chapters && b in t.chapters && a != b ==> t.chapters[a] != t.chapters[b])
  }

  /** `t1` keeps every course and chapter record of `t0` as it was. */
  ghost predicate Extends(t0: Tables, t1: Tables) {
    && (forall n :: n in t0.courses ==> n in t1.courses && t1.courses[n] == t0.courses[n])
    && (forall k :: k in t0.chapters ==> k in t1.chapters && t1.chapters[k] == t0.chapters[k])
    && t0.nextId <= t1.nextId
  }

  // ---- what one pass over the input does ----

  /** `findFirst({ where: { name } })`, then `create` when nothing was found. */
  function FindOrCreateCourse(t: Tables, name: string): (Tables, nat) {
    if name in t.courses then (t, t.courses[name])
    else (t.(courses := t.courses[name := t.nextId], nextId := t.nextId + 1), t.nextId)
  }

  /** The same for a chapter, looked up by its title and its course. */
  function FindOrCreateChapter(t: Tables, title: string, courseId: nat): (Tables, nat) {
    if (title, courseId) in t.chapters then (t, t.chapters[(title, courseId)])
    else (t.(chapters := t.chapters[(title, courseId) := t.nextId], nextId := t.nextId + 1), t.nextId)
  }

  /** `upsert` by id: create and update write the same title and chapter. */
  function UpsertVideo(t: Tables, id: string, row: VideoRow): Tables {
    t.(videos := t.videos[id := row])
  }

  function SeedVideos(t: Tables, chapterId: nat, chapterTitle: string, videos: seq<VideoData>): Tables
    decreases |videos|
  {
    if videos == [] then t
    else
      var last := videos[|videos| - 1];
      UpsertVideo(SeedVideos(t, chapterId, chapterTitle, videos[..|videos| - 1]),
        last.id, VideoRow(VideoTitle(last.title, chapterTitle), chapterId))
  }

  function SeedChapter(t: Tables, courseId: nat, chapter: ChapterData): Tables {
    var title := ChapterTitle(chapter.title);
    var (t1, chapterId) := FindOrCreateChapter(t, title, courseId);
    SeedVideos(t1, chapterId, title, chapter.videoData)
  }

  function SeedChapters(t: Tables, courseId: nat, chapters: seq<ChapterData>): Tables
    decreases |chapters|
  {
    if chapters == [] then t
    else SeedChapter(SeedChapters(t, courseId, chapters[..|chapters| - 1]), courseId, chapters[|chapters| - 1])
  }

  function SeedCourse(t: Tables, course: CourseData): Tables {
    var (t1, courseId) := FindOrCreateCourse(t, CourseName(course.courseName));
    SeedChapters(t1, courseId, course.content)
  }

  /** The tables after `main` has gone through every course of the input. */
  function SeedAll(t: Tables, courseData: seq<CourseData>): Tables
    decreases |courseData|
  {
    if courseData == [] then t
    else SeedCourse(SeedAll(t, courseData[..|courseData| - 1]), courseData[|courseData| - 1])
  }

  // ---- find-or-create keeps the tables consistent ----

  lemma FindOrCreateCourseKeeps(t: Tables, name: string)
    requires Valid(t)
    ensures var (t1, id) := FindOrCreateCourse(t, name);
      Valid(t1) && Extends(t, t1) && t1.videos == t.videos
      && t1.courses.Keys == t.courses.Keys + {name} && t1.chapters == t.chapters
      && name in t1.courses && t1.courses[name] == id
  {
    if name !in t.courses {
      var t1 := FindOrCreateCourse(t, name).0;
      forall a, b | a in t1.courses && b in t1.courses && a != b
        ensures t1.courses[a] != t1.courses[b]
      {
        if a != name && b != name {
          assert t1.courses[a] == t.courses[a] && t1.courses[b] == t.courses[b];
        }
      }
    }
  }

  lemma FindOrCreateChapterKeeps(t: Tables, title: string, courseId: nat)
    requires Valid(t)
    ensures var (t1, id) := FindOrCreateChapter(t, title, courseId);
      Valid(t1) && Extends(t, t1) && t1.videos == t.videos && t1.courses == t.courses
      && t1.chapters.Keys == t.chapters.Keys + {(title, courseId)}
      && (title, courseId) in t1.chapters && t1.chapters[(title, courseId)] == id
  {
    var key := (title, courseId);
    if key !in t.chapters {
      var t1 := FindOrCreateChapter(t, title, courseId).0;
      forall a, b | a in t1.chapters && b in t1.chapters && a != b
        ensures t1.chapters[a] != t1.chapters[b]
      {
        if a != key && b != key {
          assert t1.chapters[a] == t.chapters[a] && t1.chapters[b] == t.chapters[b];
        }
      }
    }
  }

  lemma {:induction false} SeedVideosKeeps(t: Tables, chapterId: nat, chapterTitle: string, videos: seq<VideoData>)
    ensures var t1 := SeedVideos(t, chapterId, chapterTitle, videos);
      t1.courses == t.courses && t1.chapters == t.chapters && t1.nextId == t.nextId
    decreases |videos|
  {
    if videos != [] {
      SeedVideosKeeps(t, chapterId, chapterTitle, videos[..|videos| - 1]);
    }
  }

  /** The chapter keys the chapters of one course add. */
  ghost function ChapterKeys(courseId: nat, chapters: seq<ChapterData>): set<(string, nat)>
    decreases |chapters|
  {
    if chapters == [] then {}
    else ChapterKeys(courseId, chapters[..|chapters| - 1]) + {(ChapterTitle(chapters[|chapters| - 1].title), courseId)}
  }

  lemma ExtendsTransitive(t0: Tables, t1: Tables, t2: Tables)
    requires Extends(t0, t1) && Extends(t1, t2)
    ensures Extends(t0, t2)
  {
  }

  lemma SeedChapterKeeps(t: Tables, courseId: nat, chapter: ChapterData)
    requires Valid(t)
    ensures var t1 := SeedChapter(t, courseId, chapter);
      Valid(t1) && Extends(t, t1) && t1.courses == t.courses
      && t1.chapters.Keys == t.chapters.Keys + {(ChapterTitle(chapter.title), courseId)}
  {
    var title := ChapterTitle(chapter.title);
    FindOrCreateChapterKeeps(t, title, courseId);
    var (t1, chapterId) := FindOrCreateChapter(t, title, courseId);
    SeedVideosKeeps(t1, chapterId, title, chapter.videoData);
    var t2 := SeedVideos(t1, chapterId, title, chapter.videoData);
    assert t2.courses == t1.courses && t2.chapters == t1.chapters && t2.nextId == t1.nextId;
  }

  lemma {:induction false} SeedChaptersKeeps(t: Tables, courseId: nat, chapters: seq<ChapterData>)
    requires Valid(t)
    ensures var t1 := SeedChapters(t, courseId, chapters);
      Valid(t1) && Extends(t, t1) && t1.courses == t.courses
      && t1.chapters.Keys == t.chapters.Keys + ChapterKeys(courseId, chapters)
    decreases |chapters|
  {
    if chapters != [] {
      var n := |chapters| - 1;
      var init := chapters[..n];
      SeedChaptersKeeps(t, courseId, init);
      var t0 := SeedChapters(t, courseId, init);
      SeedChapterKeeps(t0, courseId, chapters[n]);
      ExtendsTransitive(t, t0, SeedChapter(t0, courseId, chapters[n]));
    }
  }

  lemma SeedCourseKeeps(t: Tables, course: CourseData)
    requires Valid(t)
    ensures var t1 := SeedCourse(t, course);
      var name := CourseName(course.courseName);
      Valid(t1) && Extends(t, t1)
      && t1.courses.Keys == t.courses.Keys + {name}
      && t1.chapters.Keys == t.chapters.Keys + ChapterKeys(t1.courses[name], course.content)
  {
    var name := CourseName(course.courseName);
    FindOrCreateCourseKeeps(t, name);
    var (t1, courseId) := FindOrCreateCourse(t, name);
    SeedChaptersKeeps(t1, courseId, course.content);
  }

  /** The course names the input names, once cleaned up. */
  ghost function CourseNames(courseData: seq<CourseData>): set<string>
    decreases |courseData|
  {
    if courseData == [] then {}
    else CourseNames(courseData[..|courseData| - 1]) + {CourseName(courseData[|courseData| - 1].courseName)}
  }

  /**
   * Seeding keeps the tables consistent (no name or (title, course) pair
   * gets two records, and no existing record is replaced), and the courses
   * table afterwards holds exactly the old courses and the input's names.
   */
  lemma {:induction false} SeedAllKeeps(t: Tables, courseData: seq<CourseData>)
    requires Valid(t)
    ensures var t1 := SeedAll(t, courseData);
      Valid(t1) && Extends(t, t1) && t1.courses.Keys == t.courses.Keys + CourseNames(courseData)
    decreases |courseData|
  {
    if courseData != [] {
      var n := |courseData| - 1;
      var init := courseData[..n];
      SeedAllKeeps(t, init);
      var t0 := SeedAll(t, init);
      SeedCourseKeeps(t0, courseData[n]);
      ExtendsTransitive(t, t0, SeedCourse(t0, courseData[n]));
    }
  }
  /** The chapter keys the input's chapters name, with each course's id taken from `courses`. */
  ghost function InputChapterKeys(courses: map<string, nat>, courseData: seq<CourseData>): set<(string, nat)>
    decreases |courseData|
  {
    if courseData == [] then {}
    else
      var last := courseData[|courseData| - 1];
      var name := CourseName(last.courseName);
      InputChapterKeys(courses, courseData[..|courseData| - 1])
        + (if name in courses then ChapterKeys(courses[name], last.content) else {})
  }

  lemma {:induction false} InputChapterKeysStable(c0: map<string, nat>, c1: map<string, nat>, courseData: seq<CourseData>)
    requires CourseNames(courseData) <= c0.Keys
    requires forall n :: n in c0 ==> n in c1 && c1[n] == c0[n]
    ensures InputChapterKeys(c0, courseData) == InputChapterKeys(c1, courseData)
    decreases |courseData|
  {
    if courseData != [] {
      InputChapterKeysStable(c0, c1, courseData[..|courseData| - 1]);
    }
  }

  /**
   * After seeding, the chapters table holds exactly the old chapters and one
   * record per (cleaned-up title, course) pair of the input.
   */
  lemma {:induction false} SeedAllChapters(t: Tables, courseData: seq<CourseData>)
    requires Valid(t)
    ensures var t1 := SeedAll(t, courseData);
      t1.chapters.Keys == t.chapters.Keys + InputChapterKeys(t1.courses, courseData)
    decreases |courseData|
  {
    if courseData != [] {
      var n := |courseData| - 1;
      var init := courseData[..n];
      SeedAllChapters(t, init);
      SeedAllKeeps(t, init);
      var t0 := SeedAll(t, init);
      var t1 := SeedCourse(t0, courseData[n]);
      SeedCourseKeeps(t0, courseData[n]);
      InputChapterKeysStable(t0.courses, t1.courses, init);
    }
  }

  // ---- the videos table: the last upsert for an id wins ----

  /** One upsert the seeding performs, with the names it resolves its chapter by. */
  datatype Upsert = Upsert(id: string, title: string, chapterTitle: string, courseName: string)

  function VideoUpserts(courseName: string, chapterTitle: string, videos: seq<VideoData>): seq<Upsert>
    decreases |videos|
  {
    if videos == [] then []
    else
      var last := videos[|videos| - 1];
      VideoUpserts(courseName, chapterTitle, videos[..|videos| - 1])
        + [Upsert(last.id, VideoTitle(last.title, chapterTitle), chapterTitle, courseName)]
  }

  function ChapterUpserts(courseName: string, chapters: seq<ChapterData>): seq<Upsert>
    decreases |chapters|
  {
    if chapters == [] then []
    else
      var last := chapters[|chapters| - 1];
      ChapterUpserts(courseName, chapters[..|chapters| - 1])
        + VideoUpserts(courseName, ChapterTitle(last.title), last.videoData)
  }

  /** Every upsert of the run, in order. */
  function AllUpserts(courseData: seq<CourseData>): seq<Upsert>
    decreases |courseData|
  {
    if courseData == [] then []
    else
      var last := courseData[|courseData| - 1];
      AllUpserts(courseData[..|courseData| - 1]) + ChapterUpserts(CourseName(last.courseName), last.content)
  }

  /** The row an upsert stands for in `t`: its title and the id of the chapter its names lead to, if any. */
  function Resolve(t: Tables, u: Upsert): Option<VideoRow> {
    if u.courseName in t.courses && (u.chapterTitle, t.courses[u.courseName]) in t.chapters
    then Some(VideoRow(u.title, t.chapters[(u.chapterTitle, t.courses[u.courseName])]))
    else None
  }

  ghost predicate Mentioned(log: seq<Upsert>, id: string) {
    exists i :: 0 <= i < |log| && log[i].id == id
  }

  /** `log[i]` is the last upsert of its id. */
  ghost predicate IsLast(log: seq<Upsert>, i: int) {
    0 <= i < |log| && forall j :: i < j < |log| ==> log[j].id != log[i].id
  }

  /**
   * The videos table of `t` is `base` after the upserts of `log`: it holds the
   * ids of both, an id no upsert mentions keeps its old row, and every other
   * id holds the title and chapter of its last upsert.
   */
  ghost predicate VideosFollow(t: Tables, base: map<string, VideoRow>, log: seq<Upsert>) {
    && (forall id :: id in t.videos <==> id in base || Mentioned(log, id))
    && (forall id :: id in base && !Mentioned(log, id) ==> id in t.videos && t.videos[id] == base[id])
    && (forall i :: IsLast(log, i) ==> log[i].id in t.videos && Resolve(t, log[i]) == Some(t.videos[log[i].id]))
  }

  lemma FollowStable(t0: Tables, t1: Tables, base: map<string, VideoRow>, log: seq<Upsert>)
    requires VideosFollow(t0, base, log)
    requires Extends(t0, t1) && t1.videos == t0.videos
    ensures VideosFollow(t1, base, log)
  {
    forall i | IsLast(log, i)
      ensures Resolve(t1, log[i]) == Some(t1.videos[log[i].id])
    {
      assert Resolve(t0, log[i]).Some?;
    }
  }

  lemma MentionedSnoc(log: seq<Upsert>, u: Upsert, id: string)
    ensures Mentioned(log + [u], id) <==> Mentioned(log, id) || id == u.id
  {
    var log' := log + [u];
    if Mentioned(log', id) && id != u.id {
      var i :| 0 <= i < |log'| && log'[i].id == id;
      assert log[i] == log'[i];
    }
    if Mentioned(log, id) {
      var i :| 0 <= i < |log| && log[i].id == id;
      assert log'[i] == log[i];
    }
    if id == u.id {
      assert log'[|log|] == u;
    }
  }

  lemma IsLastSnoc(log: seq<Upsert>, u: Upsert, i: int)
    requires IsLast(log + [u], i) && i < |log|
    ensures IsLast(log, i) && log[i].id != u.id
  {
    var log' := log + [u];
    assert log'[i] == log[i] && log'[|log|] == u;
    forall j | i < j < |log| ensures log[j].id != log[i].id {
      assert log'[j] == log[j];
    }
  }

  lemma FollowUpsert(t0: Tables, base: map<string, VideoRow>, log: seq<Upsert>, u: Upsert, row: VideoRow)
    requires VideosFollow(t0, base, log)
    requires Resolve(t0, u) == Some(row)
    ensures VideosFollow(UpsertVideo(t0, u.id, row), base, log + [u])
  {
    var t1 := UpsertVideo(t0, u.id, row);
    var log' := log + [u];
    forall id
      ensures Mentioned(log', id) <==> Mentioned(log, id) || id == u.id
    {
      MentionedSnoc(log, u, id);
    }
    forall i | IsLast(log', i)
      ensures log'[i].id in t1.videos && Resolve(t1, log'[i]) == Some(t1.videos[log'[i].id])
    {
      if i < |log| {
        IsLastSnoc(log, u, i);
        assert log'[i] == log[i];
      } else {
        assert log'[i] == u;
      }
    }
  }

  lemma {:induction false} SeedVideosFollow(t: Tables, chapterId: nat, chapterTitle: string, courseName: string,
    videos: seq<VideoData>, base: map<string, VideoRow>, log: seq<Upsert>)
    requires VideosFollow(t, base, log)
    requires courseName in t.courses && (chapterTitle, t.courses[courseName]) in t.chapters
    requires t.chapters[(chapterTitle, t.courses[courseName])] == chapterId
    ensures VideosFollow(SeedVideos(t, chapterId, chapterTitle, videos), base,
      log + VideoUpserts(courseName, chapterTitle, videos))
    decreases |videos|
  {
    if videos == [] {
      assert log + [] == log;
    } else {
      var n := |videos| - 1;
      var init := videos[..n];
      SeedVideosFollow(t, chapterId, chapterTitle, courseName, init, base, log);
      var t0 := SeedVideos(t, chapterId, chapterTitle, init);
      SeedVideosKeeps(t, chapterId, chapterTitle, init);
      var u := Upsert(videos[n].id, VideoTitle(videos[n].title, chapterTitle), chapterTitle, courseName);
      FollowUpsert(t0, base, log + VideoUpserts(courseName, chapterTitle, init), u, VideoRow(u.title, chapterId));
      assert log + VideoUpserts(courseName, chapterTitle, videos)
        == (log + VideoUpserts(courseName, chapterTitle, init)) + [u];
    }
  }

  lemma SeedChapterFollow(t: Tables, courseId: nat, courseName: string, chapter: ChapterData,
    base: map<string, VideoRow>, log: seq<Upsert>)
    requires Valid(t) && VideosFollow(t, base, log)
    requires courseName in t.courses && t.courses[courseName] == courseId
    ensures VideosFollow(SeedChapter(t, courseId, chapter), base,
      log + VideoUpserts(courseName, ChapterTitle(chapter.title), chapter.videoData))
  {
    var title := ChapterTitle(chapter.title);
    FindOrCreateChapterKeeps(t, title, courseId);
    var (t1, chapterId) := FindOrCreateChapter(t, title, courseId);
    FollowStable(t, t1, base, log);
    SeedVideosFollow(t1, chapterId, title, courseName, chapter.videoData, base, log);
  }

  lemma {:induction false} SeedChaptersFollow(t: Tables, courseId: nat, courseName: string, chapters: seq<ChapterData>,
    base: map<string, VideoRow>, log: seq<Upsert>)
    requires Valid(t) && VideosFollow(t, base, log)
    requires courseName in t.courses && t.courses[courseName] == courseId
    ensures VideosFollow(SeedChapters(t, courseId, chapters), base, log + ChapterUpserts(courseName, chapters))
    decreases |chapters|
  {
    if chapters == [] {
      assert log + [] == log;
    } else {
      var n := |chapters| - 1;
      var init := chapters[..n];
      SeedChaptersFollow(t, courseId, courseName, init, base, log);
      SeedChaptersKeeps(t, courseId, init);
      var t0 := SeedChapters(t, courseId, init);
      var log0 := log + ChapterUpserts(courseName, init);
      SeedChapterFollow(t0, courseId, courseName, chapters[n], base, log0);
      assert SeedChapters(t, courseId, chapters) == SeedChapter(t0, courseId, chapters[n]);
      assert ChapterUpserts(courseName, chapters)
        == ChapterUpserts(courseName, init) + VideoUpserts(courseName, ChapterTitle(chapters[n].title), chapters[n].videoData);
      assert log + ChapterUpserts(courseName, chapters)
        == log0 + VideoUpserts(courseName, ChapterTitle(chapters[n].title), chapters[n].videoData);
    }
  }

  lemma SeedCourseFollow(t: Tables, course: CourseData, base: map<string, VideoRow>, log: seq<Upsert>)
    requires Valid(t) && VideosFollow(t, base, log)
    ensures VideosFollow(SeedCourse(t, course), base, log + ChapterUpserts(CourseName(course.courseName), course.content))
  {
    var name := CourseName(course.courseName);
    FindOrCreateCourseKeeps(t, name);
    var (t1, courseId) := FindOrCreateCourse(t, name);
    FollowStable(t, t1, base, log);
    SeedChaptersFollow(t1, courseId, name, course.content, base, log);
  }

  /**
   * After seeding, the videos table holds the old videos and every video of
   * the input; a video the input does not mention keeps its row, and every
   * other one has the title and the chapter of its last upsert.
   */
  lemma {:induction false} LastUpsertWins(t: Tables, courseData: seq<CourseData>)
    requires Valid(t)
    ensures VideosFollow(SeedAll(t, courseData), t.videos, AllUpserts(courseData))
    decreases |courseData|
  {
    if courseData != [] {
      var n := |courseData| - 1;
      var init := courseData[..n];
      LastUpsertWins(t, init);
      SeedAllKeeps(t, init);
      SeedCourseFollow(SeedAll(t, init), courseData[n], t.videos, AllUpserts(init));
    }
  }

  // ---- the seeding script against a database that changes in place ----

  // One more element of the input is one more step of each seeding function.

  lemma SeedVideosStep(t: Tables, chapterId: nat, chapterTitle: string, videos: seq<VideoData>, k: nat)
    requires k < |videos|
    ensures SeedVideos(t, chapterId, chapterTitle, videos[..k + 1])
      == UpsertVideo(SeedVideos(t, chapterId, chapterTitle, videos[..k]), videos[k].id,
           VideoRow(VideoTitle(videos[k].title, chapterTitle), chapterId))
  {
    assert videos[..k + 1][..k] == videos[..k];
  }

  lemma SeedChaptersStep(t: Tables, courseId: nat, chapters: seq<ChapterData>, j: nat)
    requires j < |chapters|
    ensures SeedChapters(t, courseId, chapters[..j + 1])
      == SeedChapter(SeedChapters(t, courseId, chapters[..j]), courseId, chapters[j])
  {
    assert chapters[..j + 1][..j] == chapters[..j];
  }

  lemma SeedAllStep(t: Tables, courseData: seq<CourseData>, i: nat)
    requires i < |courseData|
    ensures SeedAll(t, courseData[..i + 1]) == SeedCourse(SeedAll(t, courseData[..i]), courseData[i])
  {
    assert courseData[..i + 1][..i] == courseData[..i];
  }

  /** The three tables of the database and its id counter, updated by each call the script makes. */
  class Database {
    var courses: map<string, nat>
    var chapters: map<(string, nat), nat>
    var videos: map<string, VideoRow>
    var nextId: nat

    function Contents(): Tables
      reads this
    {
      Tables(courses, chapters, videos, nextId)
    }

    constructor (t: Tables)
      ensures Contents() == t
    {
      courses := t.courses;
      chapters := t.chapters;
      videos := t.videos;
      nextId := t.nextId;
    }

    /** `prisma.course.findFirst({ where: { name } })`. */
    method FindCourse(name: string) returns (r: Option<nat>)
      ensures r.Some? <==> name in courses
      ensures r.Some? ==> r.value == courses[name]
    {
      r := if name in courses then Some(courses[name]) else None;
    }

    /** `prisma.course.create({ data: { name } })`: the record gets a fresh id. */
    method CreateCourse(name: string) returns (id: nat)
      modifies this
      ensures id == old(nextId) && nextId == old(nextId) + 1
      ensures courses == old(courses)[name := id]
      ensures chapters == old(chapters) && videos == old(videos)
    {
      id := nextId;
      courses := courses[name := id];
      nextId := nextId + 1;
    }

    /** `prisma.courseChapter.findFirst({ where: { title, courseId } })`. */
    method FindChapter(title: string, courseId: nat) returns (r: Option<nat>)
      ensures r.Some? <==> (title, courseId) in chapters
      ensures r.Some? ==> r.value == chapters[(title, courseId)]
    {
      r := if (title, courseId) in chapters then Some(chapters[(title, courseId)]) else None;
    }

    /** `prisma.courseChapter.create({ data: { title, courseId } })`. */
    method CreateChapter(title: string, courseId: nat) returns (id: nat)
      modifies this
      ensures id == old(nextId) && nextId == old(nextId) + 1
      ensures chapters == old(chapters)[(title, courseId) := id]
      ensures courses == old(courses) && videos == old(videos)
    {
      id := nextId;
      chapters := chapters[(title, courseId) := id];
      nextId := nextId + 1;
    }

    /** `prisma.video.upsert` by id, with the same title and chapter for update and create. */
    method UpsertVideo(id: string, title: string, chapterId: nat)
      modifies this
      ensures videos == old(videos)[id := VideoRow(title, chapterId)]
      ensures courses == old(courses) && chapters == old(chapters) && nextId == old(nextId)
    {
      videos := videos[id := VideoRow(title, chapterId)];
    }

    /** Look the course up by name and create it when there is none. */
    method FindOrCreateCourseRecord(name: string) returns (id: nat)
      modifies this
      ensures (Contents(), id) == FindOrCreateCourse(old(Contents()), name)
    {
      var courseRecord := FindCourse(name);
      if courseRecord.Some? {
        id := courseRecord.value;
      } else {
        ghost var t := Contents();
        id := CreateCourse(name);
        assert Contents() == t.(courses := t.courses[name := t.nextId], nextId := t.nextId + 1);
      }
    }

    /** Look the chapter up by title and course and create it when there is none. */
    method FindOrCreateChapterRecord(title: string, courseId: nat) returns (id: nat)
      modifies this
      ensures (Contents(), id) == FindOrCreateChapter(old(Contents()), title, courseId)
    {
      var chapterRecord := FindChapter(title, courseId);
      if chapterRecord.Some? {
        id := chapterRecord.value;
      } else {
        ghost var t := Contents();
        id := CreateChapter(title, courseId);
        assert Contents() == t.(chapters := t.chapters[(title, courseId) := t.nextId], nextId := t.nextId + 1);
      }
    }

    /** The innermost loop of `main`: every video of one chapter, in order. */
    method SeedChapterVideos(chapterId: nat, chapterTitle: string, videoData: seq<VideoData>)
      modifies this
      ensures Contents() == SeedVideos(old(Contents()), chapterId, chapterTitle, videoData)
    {
      ghost var t := Contents();
      for k := 0 to |videoData|
        invariant Contents() == SeedVideos(t, chapterId, chapterTitle, videoData[..k])
      {
        var title := VideoTitle(videoData[k].title, chapterTitle);
        UpsertVideo(videoData[k].id, title, chapterId);
        SeedVideosStep(t, chapterId, chapterTitle, videoData, k);
      }
      assert videoData[..|videoData|] == videoData;
    }

    /** The middle loop of `main`: every chapter of one course, in order. */
    method SeedCourseChapters(courseId: nat, content: seq<ChapterData>)
      modifies this
      ensures Contents() == SeedChapters(old(Contents()), courseId, content)
    {
      ghost var t := Contents();
      for j := 0 to |content|
        invariant Contents() == SeedChapters(t, courseId, content[..j])
      {
        var chapterTitle := ChapterTitle(content[j].title);
        var chapterId := FindOrCreateChapterRecord(chapterTitle, courseId);
        SeedChapterVideos(chapterId, chapterTitle, content[j].videoData);
        SeedChaptersStep(t, courseId, content, j);
      }
      assert content[..|content|] == content;
    }

    /** `main`: every course of the input, in order. */
    method RunSeed(courseData: seq<CourseData>)
      modifies this
      ensures Contents() == SeedAll(old(Contents()), courseData)
    {
      ghost var t := Contents();
      for i := 0 to |courseData|
        invariant Contents() == SeedAll(t, courseData[..i])
      {
        var courseName := CourseName(courseData[i].courseName);
        var courseId := FindOrCreateCourseRecord(courseName);
        SeedCourseChapters(courseId, courseData[i].content);
        SeedAllStep(t, courseData, i);
      }
      assert courseData[..|courseData|] == courseData;
    }
  }
}
