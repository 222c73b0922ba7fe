/** The course detail page (client/src/pages/CourseDetail.jsx): the check
    `handleAddField` makes before sending a new video, resource or quiz, the
    forms it clears afterwards, and when a fetched course replaces the one
    shown. */
module CourseDetailPage {
  import opened Base

  /** A form's contents: the object the page sends, keyed by field name. */
  type FormData = map<string, string>

  /** `!!data[key]`: the key is there and its value is not empty. */
  predicate Has(data: FormData, key: string) {
    key in data && data[key] != ""
  }

  datatype AddDecision = Alert(message: string) | Put(field: string, data: FormData)

  /** The `switch` at lines 70-92: each known list requires its fields; any
      other name is refused without a request. */
  function CheckField(field: string, data: FormData): (r: AddDecision)
    ensures r.Put? ==> r == Put(field, data)
    ensures field == "videos" ==> (r.Put? <==> Has(data, "title") && Has(data, "url"))
    ensures field == "resources" ==> (r.Put? <==> Has(data, "name") && Has(data, "link"))
    ensures field == "quizzes" ==> (r.Put? <==> Has(data, "question") && Has(data, "options") && Has(data, "answer"))
    ensures field !in {"videos", "resources", "quizzes"} ==> r == Alert("Invalid field type")
  {
    if field == "videos" then
      if !Has(data, "title") || !Has(data, "url") then Alert("Please fill in all fields for video")
      else Put(field, data)
    else if field == "resources" then
      if !Has(data, "name") || !Has(data, "link") then Alert("Please fill in all fields for resource")
      else Put(field, data)
    else if field == "quizzes" then
      if !Has(data, "question") || !Has(data, "options") || !Has(data, "answer") then Alert("Please fill in all fields for quiz")
      else Put(field, data)
    else Alert("Invalid field type")
  }

  datatype Forms = Forms(video: FormData, resource: FormData, quiz: FormData)

  const EmptyVideo: FormData := map["title" := "", "url" := ""]
  const EmptyResource: FormData := map["name" := "", "link" := ""]
  const EmptyQuiz: FormData := map["question" := "", "options" := "", "answer" := ""]

  /** Lines 101-103, after the server accepted the field: only the submitted
      field's form is cleared. */
  function ResetAfter(forms: Forms, field: string): (r: Forms)
    ensures r.video == (if field == "videos" then EmptyVideo else forms.video)
    ensures r.resource == (if field == "resources" then EmptyResource else forms.resource)
    ensures r.quiz == (if field == "quizzes" then EmptyQuiz else forms.quiz)
  {
    var f1 := if field == "videos" then forms.(video := EmptyVideo) else forms;
    var f2 := if field == "resources" then f1.(resource := EmptyResource) else f1;
    if field == "quizzes" then f2.(quiz := EmptyQuiz) else f2
  }

  /** A cleared form cannot be sent again: its fields are empty. */
  lemma ClearedFormRefused(forms: Forms, field: string)
    requires field in {"videos", "resources", "quizzes"}
    ensures var r := ResetAfter(forms, field);
            var data := if field == "videos" then r.video else if field == "resources" then r.resource else r.quiz;
            CheckField(field, data).Alert?
  {
  }

  /** Lines 39-41: the fetched course is stored unless it equals the one
      already shown. Either way the page then shows the fetched course. */
  function NextCourse<T(==)>(shown: Option<T>, fetched: T): (r: (T, bool))
    ensures r.0 == fetched
    ensures r.1 <==> shown != Some(fetched)
  {
    if shown.None? || shown.value != fetched then (fetched, true) else (fetched, false)
  }
}
