/**
 * The three-step idea form (src/components/IdeaFormWizard.tsx): the step counter the next and
 * back buttons move, and `submit`, which checks the title, posts the payload and either shows
 * an error or navigates to the new idea. The translated messages, the locale and the answer of
 * the API are parameters; the answer's data is the new idea's id.
 */
module IdeaFormWizard {
  import opened Wrappers
  import opened Text
  import opened ApiTypes

  /** `StepKey`: 1, 2 or 3. */
  type Step = s: int | 1 <= s <= 3 witness 1

  /** `next`: one step on, never past the last. */
  function NextStep(s: Step): (r: Step)
    ensures r >= s && (s < 3 ==> r == s + 1) && (s == 3 ==> r == 3)
  {
    if s + 1 < 3 then s + 1 else 3
  }

  /** `prev`: one step back, never before the first. */
  function PrevStep(s: Step): (r: Step)
    ensures r <= s && (s > 1 ==> r == s - 1) && (s == 1 ==> r == 1)
  {
    if s - 1 > 1 then s - 1 else 1
  }

  /** Back undoes next, and next undoes back, away from the ends they are clamped at. */
  lemma StepsInverse(s: Step)
    ensures s < 3 ==> PrevStep(NextStep(s)) == s
    ensures s > 1 ==> NextStep(PrevStep(s)) == s
  {
  }

  /** The body posted to `/api/ideas`. */
  datatype Payload = Payload(title: string, description: string, images: seq<string>, tags: seq<string>)

  /**
   * The payload `submit` sends, or `None` when the trimmed title is empty and nothing is sent:
   * the title and description trimmed, the images and tags as they are.
   */
  function PayloadOf(title: string, description: string, images: seq<string>, tags: seq<string>): (r: Option<Payload>)
    ensures r.None? <==> Trim(title) == []
    ensures r.Some? ==> r.value.title == Trim(title) && r.value.description == Trim(description)
    ensures r.Some? ==> r.value.images == images && r.value.tags == tags
  {
    if Trim(title) == [] then None else Some(Payload(Trim(title), Trim(description), images, tags))
  }

  /**
   * Nothing is sent exactly when the title is whitespace only; a payload that is sent has a
   * non-empty title that trimming leaves alone.
   */
  lemma PayloadTitle(title: string, description: string, images: seq<string>, tags: seq<string>)
    ensures PayloadOf(title, description, images, tags).None? <==> IsBlank(title)
    ensures PayloadOf(title, description, images, tags).Some? ==>
      var t := PayloadOf(title, description, images, tags).value.title;
      t != [] && Trim(t) == t
  {
    TrimEmptyIffBlank(title);
    TrimIdempotent(title);
  }

  /** The path the form navigates to after creating the idea `id`. */
  function IdeaPath(locale: string, id: string): string {
    "/" + locale + "/ideas/" + id
  }

  class IdeaFormWizard {
    var step: Step
    var title: string
    var description: string
    var images: seq<string>
    var tags: seq<string>
    var error: string
    var isSubmitting: bool

    /** The form opens on the first step, empty, with no error and nothing in flight. */
    constructor ()
      ensures step == 1 && title == "" && description == "" && images == [] && tags == []
      ensures error == "" && !isSubmitting
    {
      step := 1;
      title := "";
      description := "";
      images := [];
      tags := [];
      error := "";
      isSubmitting := false;
    }

    method Next()
      modifies this
      ensures step == NextStep(old(step))
      ensures title == old(title) && description == old(description) && images == old(images) && tags == old(tags)
      ensures error == old(error) && isSubmitting == old(isSubmitting)
    {
      step := NextStep(step);
    }

    method Prev()
      modifies this
      ensures step == PrevStep(old(step))
      ensures title == old(title) && description == old(description) && images == old(images) && tags == old(tags)
      ensures error == old(error) && isSubmitting == old(isSubmitting)
    {
      step := PrevStep(step);
    }

    /** The fields the form's inputs write. */
    method Edit(title: string, description: string, images: seq<string>, tags: seq<string>)
      modifies this
      ensures this.title == title && this.description == description && this.images == images && this.tags == tags
      ensures step == old(step) && error == old(error) && isSubmitting == old(isSubmitting)
    {
      this.title := title;
      this.description := description;
      this.images := images;
      this.tags := tags;
    }

    /**
     * `submit`: a blank title shows `missingTitle` and sends nothing; otherwise the payload is
     * sent, a failure shows `submitError` and re-enables the form, and a success leaves the form
     * submitting and navigates to the new idea.
     */
    method Submit(locale: string, missingTitle: string, submitError: string, answer: ApiResponse<string>)
      returns (sent: Option<Payload>, navigateTo: Option<string>)
      modifies this
      ensures sent == PayloadOf(old(title), old(description), old(images), old(tags))
      ensures sent.None? ==> error == missingTitle && isSubmitting == old(isSubmitting) && navigateTo.None?
      ensures sent.Some? && answer.Failure? ==> error == submitError && !isSubmitting && navigateTo.None?
      ensures sent.Some? && answer.Success? ==>
        error == "" && isSubmitting && navigateTo == Some(IdeaPath(locale, answer.data))
      ensures step == old(step) && title == old(title) && description == old(description)
      ensures images == old(images) && tags == old(tags)
    {
      var payload := PayloadOf(title, description, images, tags);
      sent := payload;
      navigateTo := None;
      if payload.None? {
        error := missingTitle;
      } else if answer.Failure? {
        error := submitError;
        isSubmitting := false;
      } else {
        error := "";
        isSubmitting := true;
        navigateTo := Some(IdeaPath(locale, answer.data));
      }
    }
  }
}
