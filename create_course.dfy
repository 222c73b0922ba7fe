/** The course creation wizard (client/src/components/admin/CreateCourse.jsx):
    uploading files one after another, the quiz editor, removing an entry from
    a list, and the step buttons. Uploads are a call into the server, passed
    in as a function from the file to its reply. */
module CreateCoursePage {
  import opened Base
  import opened Seqs

  // ------------------------------------------------------------- uploads

  datatype File = File(name: string, mime: string)
  datatype UploadReply = Uploaded(url: string, duration: Option<int>) | UploadFailed

  datatype DraftVideo = DraftVideo(title: string, url: string, duration: Option<int>)
  datatype DraftResource = DraftResource(title: string, url: string, kind: string)

  /** The entries the loop pushes: one per successful upload, in file order. */
  function Successes<R>(files: seq<File>, upload: File -> UploadReply, make: (File, UploadReply) -> R): (r: seq<R>)
    ensures |r| <= |files|
    ensures (forall k :: 0 <= k < |files| ==> upload(files[k]).Uploaded?) ==> |r| == |files|
  {
    if files == [] then []
    else
      var init := files[..|files| - 1];
      var last := files[|files| - 1];
      assert forall k :: 0 <= k < |init| ==> init[k] == files[k];
      Successes(init, upload, make) + (if upload(last).Uploaded? then [make(last, upload(last))] else [])
  }

  /** Some upload failed. */
  predicate AnyFailed(files: seq<File>, upload: File -> UploadReply) {
    exists k :: 0 <= k < |files| && upload(files[k]).UploadFailed?
  }

  /** The `for…of` loop of lines 57-96 (and 100-134): the list starts as a copy
      of the current one; each file is uploaded in turn, a success pushes its
      entry and a failure sets the error and goes on with the next file. */
  method UploadAll<R>(existing: seq<R>, files: seq<File>, upload: File -> UploadReply,
                      make: (File, UploadReply) -> R, failure: string)
    returns (list: seq<R>, error: Option<string>)
    ensures list == existing + Successes(files, upload, make)
    ensures error.Some? <==> AnyFailed(files, upload)
    ensures error.Some? ==> error.value == failure
  {
    list := existing;
    error := None;
    var i := 0;
    while i < |files|
      invariant 0 <= i <= |files|
      invariant list == existing + Successes(files[..i], upload, make)
      invariant error.Some? <==> AnyFailed(files[..i], upload)
      invariant error.Some? ==> error.value == failure
    {
      var file := files[i];
      var reply := upload(file);
      assert files[..i + 1][..i] == files[..i];
      if reply.Uploaded? {
        list := list + [make(file, reply)];
      } else {
        error := Some(failure);
      }
      assert AnyFailed(files[..i + 1], upload) <==> AnyFailed(files[..i], upload) || reply.UploadFailed? by {
        assert forall k :: 0 <= k < i ==> files[..i + 1][k] == files[..i][k];
        assert files[..i + 1][i] == file;
      }
      i := i + 1;
    }
    assert files[..|files|] == files;
  }

  function VideoOf(f: File, reply: UploadReply): DraftVideo {
    DraftVideo(f.name, if reply.Uploaded? then reply.url else "", if reply.Uploaded? then reply.duration else None)
  }

  function ResourceOf(f: File, reply: UploadReply): DraftResource {
    DraftResource(f.name, if reply.Uploaded? then reply.url else "", f.mime)
  }

  const VideoUploadFailed := "Failed to upload video. Please try again."
  const ResourceUploadFailed := "Failed to upload resource. Please try again."

  /** `handleVideoUpload`: the videos after the loop, and the error it set. */
  method HandleVideoUpload(videos: seq<DraftVideo>, files: seq<File>, upload: File -> UploadReply)
    returns (list: seq<DraftVideo>, error: Option<string>)
    ensures list == videos + Successes(files, upload, VideoOf)
    ensures error.Some? <==> AnyFailed(files, upload)
    ensures error.Some? ==> error.value == VideoUploadFailed
  {
    list, error := UploadAll(videos, files, upload, VideoOf, VideoUploadFailed);
  }

  /** `handleResourceUpload`: the same loop over resources. */
  method HandleResourceUpload(resources: seq<DraftResource>, files: seq<File>, upload: File -> UploadReply)
    returns (list: seq<DraftResource>, error: Option<string>)
    ensures list == resources + Successes(files, upload, ResourceOf)
    ensures error.Some? <==> AnyFailed(files, upload)
    ensures error.Some? ==> error.value == ResourceUploadFailed
  {
    list, error := UploadAll(resources, files, upload, ResourceOf, ResourceUploadFailed);
  }

  /** Each successful upload's entry carries its file's name, in file order. */
  lemma {:induction false} SuccessNames(files: seq<File>, upload: File -> UploadReply)
    ensures var r := Successes(files, upload, VideoOf);
            |r| == |Filter(files, (f: File) => upload(f).Uploaded?)| &&
            forall k :: 0 <= k < |r| ==> r[k].title == Filter(files, (f: File) => upload(f).Uploaded?)[k].name
  {
    var p := (f: File) => upload(f).Uploaded?;
    if files != [] {
      var init := files[..|files| - 1];
      var last := files[|files| - 1];
      SuccessNames(init, upload);
      assert files == init + [last];
      FilterSnoc(init, last, p);
    }
  }

  // -------------------------------------------------------- quiz editor

  datatype Question = Question(question: string, options: seq<string>, correctAnswer: int)
  datatype Quiz = Quiz(title: string, questions: seq<Question>)

  /** The `[field]: value` of `handleQuizChange`, one case per field the page
      edits. */
  datatype QuizChange = SetQuestion(text: string) | SetOptions(options: seq<string>) | SetCorrectAnswer(index: int)

  const BlankQuestion := Question("", ["", "", "", ""], 0)
  const EmptyQuiz := Quiz("", [])

  /** `addQuestion`: one blank question (four empty options, answer 0) at the end. */
  function AddQuestion(q: Quiz): (r: Quiz)
    ensures r.title == q.title
    ensures |r.questions| == |q.questions| + 1 && r.questions[..|q.questions|] == q.questions
    ensures r.questions[|q.questions|] == BlankQuestion
  {
    q.(questions := q.questions + [BlankQuestion])
  }

  function Apply(question: Question, change: QuizChange): Question {
    match change
    case SetQuestion(text) => question.(question := text)
    case SetOptions(options) => question.(options := options)
    case SetCorrectAnswer(i) => question.(correctAnswer := i)
  }

  /** `handleQuizChange` on the copied list: only the given field of the
      question at `index` changes. */
  method HandleQuizChange(q: Quiz, index: nat, change: QuizChange) returns (r: Quiz)
    requires index < |q.questions|
    ensures r.title == q.title && |r.questions| == |q.questions|
    ensures forall k :: 0 <= k < |q.questions| && k != index ==> r.questions[k] == q.questions[k]
    ensures r.questions[index] == Apply(q.questions[index], change)
  {
    var updated := new Question[|q.questions|](k requires 0 <= k < |q.questions| => q.questions[k]);
    updated[index] := Apply(updated[index], change);
    r := q.(questions := updated[..]);
  }

  /** Setting a field changes that field and no other. */
  lemma ApplyChangesOneField(question: Question, change: QuizChange)
    ensures change.SetQuestion? ==> Apply(question, change) == question.(question := change.text)
    ensures !change.SetOptions? ==> Apply(question, change).options == question.options
    ensures !change.SetCorrectAnswer? ==> Apply(question, change).correctAnswer == question.correctAnswer
    ensures !change.SetQuestion? ==> Apply(question, change).question == question.question
  {
  }

  /** `saveQuiz`: a quiz with a title and at least one question joins the
      saved ones and the editor starts over; otherwise nothing changes. */
  function SaveQuiz(quizzes: seq<Quiz>, current: Quiz): (r: (seq<Quiz>, Quiz))
    ensures current.title != "" && |current.questions| > 0 ==> r == (quizzes + [current], EmptyQuiz)
    ensures current.title == "" || |current.questions| == 0 ==> r == (quizzes, current)
  {
    if current.title != "" && |current.questions| > 0 then (quizzes + [current], EmptyQuiz)
    else (quizzes, current)
  }

  /** A fresh editor cannot be saved until a title is typed and a question is
      added. */
  lemma SaveNeedsTitleAndQuestion(quizzes: seq<Quiz>, title: string)
    ensures SaveQuiz(quizzes, AddQuestion(EmptyQuiz)).0 == quizzes
    ensures title != "" ==> SaveQuiz(quizzes, AddQuestion(EmptyQuiz).(title := title)).0 ==
                            quizzes + [Quiz(title, [BlankQuestion])]
  {
  }

  // ------------------------------------------------------ the course draft

  datatype Draft = Draft(title: string, description: string, price: string, category: string, level: string,
                         videos: seq<DraftVideo>, resources: seq<DraftResource>, quizzes: seq<Quiz>)

  /** The delete buttons (lines 309-313, 353-357, 448-452): `splice(index, 1)`
      on a copy of one list; the other lists are untouched. */
  function RemoveVideo(d: Draft, index: nat): (r: Draft)
    requires index < |d.videos|
    ensures r == d.(videos := r.videos)
    ensures r.videos == d.videos[..index] + d.videos[index + 1..]
  {
    d.(videos := RemoveAt(d.videos, index))
  }

  function RemoveResource(d: Draft, index: nat): (r: Draft)
    requires index < |d.resources|
    ensures r == d.(resources := r.resources)
    ensures r.resources == d.resources[..index] + d.resources[index + 1..]
  {
    d.(resources := RemoveAt(d.resources, index))
  }

  function RemoveQuiz(d: Draft, index: nat): (r: Draft)
    requires index < |d.quizzes|
    ensures r == d.(quizzes := r.quizzes)
    ensures r.quizzes == d.quizzes[..index] + d.quizzes[index + 1..]
  {
    d.(quizzes := RemoveAt(d.quizzes, index))
  }

  /** Removing a quiz just saved gives back the quizzes from before. */
  lemma SaveThenRemove(d: Draft, current: Quiz)
    requires current.title != "" && |current.questions| > 0
    ensures var saved := d.(quizzes := SaveQuiz(d.quizzes, current).0);
            RemoveQuiz(saved, |d.quizzes|) == d
  {
    var saved := d.(quizzes := SaveQuiz(d.quizzes, current).0);
    assert saved.quizzes[..|d.quizzes|] == d.quizzes;
  }

  // --------------------------------------------------------------- steps

  /** The wizard's steps (line 37). */
  const Steps: seq<string> := ["Basic Information", "Course Content", "Resources", "Quizzes"]

  datatype Primary = NextButton | CreateButton
  datatype StepButtons = StepButtons(backEnabled: bool, primary: Primary)

  /** Lines 484-506: Back is disabled on the first step; the last step shows
      Create instead of Next. */
  function ButtonsAt(step: int): (r: StepButtons)
    ensures r.backEnabled <==> step != 0
    ensures r.primary == CreateButton <==> step == |Steps| - 1
  {
    StepButtons(step != 0, if step == |Steps| - 1 then CreateButton else NextButton)
  }

  datatype StepAction = Next | Back

  /** `handleNext` / `handleBack`. */
  function Press(step: int, a: StepAction): (r: int)
    ensures a == Next ==> r == step + 1
    ensures a == Back ==> r == step - 1
  {
    match a
    case Next => step + 1
    case Back => step - 1
  }

  /** A button is there to press: Back when enabled, Next when shown. */
  predicate Available(step: int, a: StepAction) {
    match a
    case Next => ButtonsAt(step).primary == NextButton
    case Back => ButtonsAt(step).backEnabled
  }

  /** Pressing only the buttons the page offers keeps the step within the
      wizard's steps, starting from the first. */
  lemma {:induction false} StepsStayInRange(presses: seq<StepAction>)
    requires forall k :: 0 <= k < |presses| ==> Available(Run(presses[..k]), presses[k])
    ensures 0 <= Run(presses) < |Steps|
  {
    if presses != [] {
      var n := |presses| - 1;
      var init := presses[..n];
      assert forall k :: 0 <= k < n ==> init[..k] == presses[..k] && init[k] == presses[k];
      StepsStayInRange(init);
      assert init == presses[..n];
    }
  }

  /** The step after a run of presses from step 0. */
  function Run(presses: seq<StepAction>): int {
    if presses == [] then 0 else Press(Run(presses[..|presses| - 1]), presses[|presses| - 1])
  }
}
