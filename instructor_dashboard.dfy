/** The instructor dashboard page
    (client/src/components/instructor/InstructorDashboard.jsx): the content
    form's validation, the content list it sends for an edit or an addition,
    the local course list after a delete, the earnings figure and the reset of
    the new-course form. */
module InstructorDashboardPage {
  import opened Base
  import opened JsStrings
  import opened Seqs
  import CourseModel

  // ------------------------------------------------ the YouTube URL pattern

  /** The alternatives of `^(https?:\/\/)?(www\.)?(youtube\.com|youtu\.be)\/.+$`. */
  datatype Scheme = NoScheme | Http | Https
  datatype Host = YouTubeCom | YoutuBe

  function SchemeText(x: Scheme): string {
    match x
    case NoScheme => ""
    case Http => "http://"
    case Https => "https://"
  }

  function HostText(h: Host): string {
    match h
    case YouTubeCom => "youtube.com"
    case YoutuBe => "youtu.be"
  }

  function WwwText(www: bool): string {
    if www then "www." else ""
  }

  /** What the pattern's groups match before `.+`, for one choice of each. */
  function PatternPrefix(x: Scheme, www: bool, h: Host): string {
    SchemeText(x) + WwwText(www) + HostText(h) + "/"
  }

  /** `.` matches any character but a line terminator. */
  predicate IsLineTerminator(c: char) {
    c == '\n' || c == '\r' || c == '\U{2028}' || c == '\U{2029}'
  }

  /** `.+$`: one or more characters, none a line terminator, to the end. */
  predicate DotPlus(s: string) {
    |s| > 0 && forall i :: 0 <= i < |s| ==> !IsLineTerminator(s[i])
  }

  predicate MatchesWith(s: string, x: Scheme, www: bool, h: Host) {
    var p := PatternPrefix(x, www, h);
    StartsWith(s, p) && DotPlus(s[|p|..])
  }

  /** The language of the pattern: some choice of the optional groups and the
      host alternative matches a prefix and `.+` the rest. */
  predicate YouTubePattern(s: string) {
    exists x: Scheme, www: bool, h: Host :: MatchesWith(s, x, www, h)
  }

  /** The left-to-right choices: the longest scheme the text starts with,
      then `www.` if it follows, then the host that follows. */
  function SchemeOf(s: string): Scheme {
    if StartsWith(s, "https://") then Https else if StartsWith(s, "http://") then Http else NoScheme
  }

  function HostOf(u: string): Option<Host> {
    if StartsWith(u, "youtube.com/") then Some(YouTubeCom)
    else if StartsWith(u, "youtu.be/") then Some(YoutuBe) else None
  }

  /** `youtubeRegex.test(url)`, matched left to right: take the scheme, then
      `www.`, then the host the text starts with. */
  function YouTubeTest(s: string): (b: bool)
    ensures b <==> YouTubePattern(s)
  {
    var x := SchemeOf(s);
    var t := s[|SchemeText(x)|..];
    var www := StartsWith(t, "www.");
    var h := HostOf(t[|WwwText(www)|..]);
    var b := h.Some? && MatchesWith(s, x, www, h.value);
    assert YouTubePattern(s) ==> b by {
      if YouTubePattern(s) {
        var x', w', h' :| MatchesWith(s, x', w', h');
        PatternChoice(s, x', w', h');
      }
    }
    b
  }

  lemma StartsWithConcat(s: string, a: string, b: string)
    ensures StartsWith(s, a + b) <==> StartsWith(s, a) && StartsWith(s[|a|..], b)
  {
    if StartsWith(s, a) && StartsWith(s[|a|..], b) {
      assert s[..|a| + |b|] == s[..|a|] + s[|a|..][..|b|];
    }
    if StartsWith(s, a + b) {
      assert s[..|a|] == (a + b)[..|a|];
      assert s[|a|..][..|b|] == s[|a|..|a| + |b|] == (a + b)[|a|..];
    }
  }

  /** The choices a match is made with are the ones the left-to-right test
      takes: the scheme, `www.` and host alternatives exclude each other. */
  lemma PatternChoice(s: string, x: Scheme, www: bool, h: Host)
    requires MatchesWith(s, x, www, h)
    ensures x == SchemeOf(s)
    ensures www == StartsWith(s[|SchemeText(x)|..], "www.")
    ensures HostOf(s[|SchemeText(x)|..][|WwwText(www)|..]) == Some(h)
  {
    PatternParts(s, x, www, h);
    var t := s[|SchemeText(x)|..];
    HostChoice(t[|WwwText(www)|..], h);
    WwwChoice(t, www, HostText(h) + "/");
    SchemeChoice(s, x, t[0]);
  }

  /** A match splits into the scheme, `www.` and host parts, one after another. */
  lemma PatternParts(s: string, x: Scheme, www: bool, h: Host)
    requires MatchesWith(s, x, www, h)
    ensures StartsWith(s, SchemeText(x))
    ensures var t := s[|SchemeText(x)|..];
            && StartsWith(t, WwwText(www) + (HostText(h) + "/"))
            && StartsWith(t[|WwwText(www)|..], HostText(h) + "/")
  {
    var sx := SchemeText(x);
    var w := WwwText(www);
    var hr := HostText(h) + "/";
    ConcatAssoc(sx, w, HostText(h), "/");
    StartsWithConcat(s, sx, w + hr);
    StartsWithConcat(s[|sx|..], w, hr);
  }

  lemma ConcatAssoc(a: string, b: string, c: string, d: string)
    ensures a + b + c + d == a + (b + (c + d))
  {
  }

  /** `youtube.com/` and `youtu.be/` differ at their sixth character. */
  lemma HostChoice(u: string, h: Host)
    requires StartsWith(u, HostText(h) + "/")
    ensures u[0] == 'y'
    ensures HostOf(u) == Some(h)
  {
    var hr := HostText(h) + "/";
    assert u[..|hr|] == hr;
    assert u[0] == hr[0] == 'y';
    assert u[5] == hr[5];
    if StartsWith(u, "youtube.com/") {
      assert u[5] == "youtube.com/"[5] == 'b';
    }
  }

  /** What follows the optional `www.` starts with `y`, so `www.` was there
      exactly when the text starts with it. */
  lemma WwwChoice(t: string, www: bool, hr: string)
    requires StartsWith(t, WwwText(www) + hr) && |hr| > 0 && hr[0] == 'y'
    ensures www == StartsWith(t, "www.")
    ensures t[0] == 'w' || t[0] == 'y'
  {
    var w := WwwText(www);
    assert t[..|w| + |hr|] == w + hr;
    assert t[0] == (w + hr)[0];
    if www {
      assert t[..4] == (w + hr)[..4] == "www.";
    } else {
      assert t[0] == 'y';
    }
  }

  /** What follows the optional scheme starts with `w` or `y`, so the scheme is
      the longest of `https://`, `http://` and nothing the text starts with. */
  lemma SchemeChoice(s: string, x: Scheme, c: char)
    requires StartsWith(s, SchemeText(x)) && |s| > |SchemeText(x)| && s[|SchemeText(x)|] == c
    requires c == 'w' || c == 'y'
    ensures x == SchemeOf(s)
  {
    match x
    case Https =>
    case Http =>
      assert s[..7] == "http://";
      assert s[4] == ':';
    case NoScheme =>
  }

  // ------------------------------------------------------ the content form

  /** A content item as the page holds it: items fetched from the server have
      an `_id`, the form's `newContent` has none. */
  datatype PageItem = PageItem(id: Option<Id>, kind: string, title: string, url: string, description: string)

  datatype ContentForm = ContentForm(kind: string, title: string, url: string, description: string)

  function ItemOfForm(f: ContentForm): PageItem {
    PageItem(None, f.kind, f.title, f.url, f.description)
  }

  datatype SubmitResult = FormError(message: string) | SendContent(courseId: Id, content: seq<PageItem>)

  const AllFieldsRequired := "All fields are required"
  const InvalidYouTube := "Please enter a valid YouTube URL"

  /** `content.map(c => c._id === editingId ? newContent : c)`. */
  function ReplaceEdited(content: seq<PageItem>, editingId: Id, item: PageItem): (r: seq<PageItem>)
    ensures |r| == |content|
    ensures forall k :: 0 <= k < |content| ==>
              r[k] == (if content[k].id == Some(editingId) then item else content[k])
  {
    seq(|content|, k requires 0 <= k < |content| =>
      if content[k].id == Some(editingId) then item else content[k])
  }

  /** `handleContentSubmit` up to the request it sends: every field must be
      non-empty, a video's URL must match the YouTube pattern, and then the
      course's content list is sent with the edited item replaced or the new
      one appended. */
  function HandleContentSubmit(form: ContentForm, editing: Option<Id>, courseId: Id, content: seq<PageItem>)
    : (r: SubmitResult)
    ensures (form.kind == "" || form.title == "" || form.url == "" || form.description == "") ==>
              r == FormError(AllFieldsRequired)
    ensures r == FormError(InvalidYouTube) <==>
              form.kind == "video" && form.title != "" && form.url != "" && form.description != "" &&
              !YouTubePattern(form.url)
    ensures r.FormError? || r.SendContent?
    // a complete form whose video URL, if any, fits the pattern is sent
    ensures r.SendContent? <==>
      form.kind != "" && form.title != "" && form.url != "" && form.description != "" &&
      (form.kind == "video" ==> YouTubePattern(form.url))
    ensures r.SendContent? ==>
      && r.courseId == courseId
      && form.title != "" && form.url != "" && form.description != ""
      && (form.kind == "video" ==> YouTubePattern(form.url))
      && (editing.None? ==> r.content == content + [ItemOfForm(form)])
      && (editing.Some? ==> r.content == ReplaceEdited(content, editing.value, ItemOfForm(form)))
  {
    if form.kind == "" || form.title == "" || form.url == "" || form.description == "" then
      FormError(AllFieldsRequired)
    else if form.kind == "video" && !YouTubeTest(form.url) then
      FormError(InvalidYouTube)
    else if editing.Some? then
      SendContent(courseId, ReplaceEdited(content, editing.value, ItemOfForm(form)))
    else
      SendContent(courseId, content + [ItemOfForm(form)])
  }

  /** A non-video item skips the URL check. */
  lemma NonVideoSkipsUrlCheck(form: ContentForm, editing: Option<Id>, courseId: Id, content: seq<PageItem>)
    requires form.kind != "video" && form.kind != "" && form.title != "" && form.url != "" && form.description != ""
    ensures HandleContentSubmit(form, editing, courseId, content).SendContent?
  {
  }

  /** `handleEditContent` fills the form from the item with that id, if the
      course has one. */
  function FormOf(content: seq<PageItem>, contentId: Id): (r: Option<ContentForm>)
    ensures r.Some? ==> exists k :: 0 <= k < |content| && content[k].id == Some(contentId) &&
                          r.value == ContentForm(content[k].kind, content[k].title, content[k].url, content[k].description)
    ensures r.None? <==> forall k :: 0 <= k < |content| ==> content[k].id != Some(contentId)
  {
    match FirstIndex(content, (c: PageItem) => c.id == Some(contentId))
    case None => None
    case Some(i) =>
      var c := content[i];
      Some(ContentForm(c.kind, c.title, c.url, c.description))
  }

  /** Editing an item and submitting its form unchanged sends the list with
      that item's fields as they were; only the id is dropped. */
  lemma EditUnchanged(content: seq<PageItem>, contentId: Id, courseId: Id)
    requires UniqueIds(content) && FormOf(content, contentId).Some?
    requires var f := FormOf(content, contentId).value;
             f.kind != "" && f.title != "" && f.url != "" && f.description != "" &&
             (f.kind == "video" ==> YouTubePattern(f.url))
    ensures var r := HandleContentSubmit(FormOf(content, contentId).value, Some(contentId), courseId, content);
            && r.SendContent? && |r.content| == |content|
            && forall k :: 0 <= k < |content| ==> r.content[k] == content[k].(id := if content[k].id == Some(contentId) then None else content[k].id)
  {
    var f := FormOf(content, contentId).value;
    var i :| 0 <= i < |content| && content[i].id == Some(contentId) &&
             f == ContentForm(content[i].kind, content[i].title, content[i].url, content[i].description);
  }

  predicate UniqueIds(content: seq<PageItem>) {
    forall i, j :: 0 <= i < j < |content| && content[i].id.Some? ==> content[i].id != content[j].id
  }

  // ------------------------------------------------------- the course list

  /** A course as the page holds it; `enrolledStudents` may be absent, which
      line 329 guards with `?.`. */
  datatype DashCourse = DashCourse(id: Id, title: string, price: int, roster: Option<seq<CourseModel.RosterEntry>>)

  /** Line 163, once the server has deleted the course: every course with that
      id leaves the local list; the others stay in order. */
  function AfterDelete(courses: seq<DashCourse>, courseId: Id): (r: seq<DashCourse>)
    ensures IsSubseq(r, courses)
    ensures forall k :: 0 <= k < |r| ==> r[k].id != courseId
    ensures forall k :: 0 <= k < |courses| && courses[k].id != courseId ==> courses[k] in r
    ensures |r| == Count(courses, (c: DashCourse) => c.id != courseId)
  {
    FilterIsSubseq(courses, (c: DashCourse) => c.id != courseId);
    FilterCount(courses, (c: DashCourse) => c.id != courseId);
    Filter(courses, (c: DashCourse) => c.id != courseId)
  }

  /** Line 329: `price × (enrolledStudents?.length || 0)`. */
  function Earned(c: DashCourse): (e: int)
    ensures c.roster.None? ==> e == 0
    ensures c.roster.Some? ==> e == c.price * |c.roster.value|
  {
    c.price * (if c.roster.Some? then |c.roster.value| else 0)
  }

  // ------------------------------------------------------- the course form

  datatype NewCourseForm = NewCourseForm(title: string, description: string, price: string,
                                         category: string, level: string)
  datatype CourseDialog = CourseDialog(open: bool, form: NewCourseForm)

  const DefaultCourseForm := NewCourseForm("", "", "", "", "beginner")

  /** `handleCloseDialog`: the dialog closes and the form is back to its
      defaults, whatever was typed. */
  function CloseDialog(d: CourseDialog): (r: CourseDialog)
    ensures !r.open && r.form == DefaultCourseForm
  {
    CourseDialog(false, DefaultCourseForm)
  }
}
