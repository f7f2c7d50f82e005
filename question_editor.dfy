/**
 * QuestionEditorController: the dialog that edits one question of an
 * exam.  The form holds what the controls show; saving validates the form
 * in a fixed order, warns on the first problem, and otherwise writes the
 * trimmed texts, the parsed score and the non-blank option lines into the
 * question.  The options area is visible exactly for choice questions once
 * a type has been selected.
 */
module QuestionEditor {
  import opened Wrappers
  import opened Model
  import opened Text

  /** What the dialog's controls hold: the type box and the four texts. */
  datatype Form = Form(qtype: Option<QuestionType>, title: string, answer: string, score: string, options: string)

  /** What isInputValid objects to, in the order it checks. */
  datatype Problem = MissingField | BadScore | MissingOptions

  /** The warning shown for each problem. */
  function ProblemText(p: Problem): string {
    match p
    case MissingField => "请填写完整信息（题目类型、题干、正确答案和分值）。"
    case BadScore => "分值必须是一个有效的数字。"
    case MissingOptions => "选择题类型的题目必须填写选项。"
  }

  /** toggleOptionsVisibility: options are shown for single and multiple choice only (and not for null). */
  function OptionsVisible(t: Option<QuestionType>): (b: bool)
    ensures b <==> t == Some(SingleChoice) || t == Some(MultiChoice)
  {
    match t
    case Some(SingleChoice) => true
    case Some(MultiChoice) => true
    case _ => false
  }

  predicate Incomplete(f: Form) {
    f.qtype.None? || IsBlank(f.title) || IsBlank(f.answer) || IsBlank(f.score)
  }

  /** isInputValid: None when the form may be saved, otherwise the first problem found. */
  function Validate(f: Form): (r: Option<Problem>)
    ensures Incomplete(f) ==> r == Some(MissingField)
    ensures !Incomplete(f) && ParseInt(Trim(f.score)).None? ==> r == Some(BadScore)
    ensures !Incomplete(f) && ParseInt(Trim(f.score)).Some? && OptionsVisible(f.qtype) && IsBlank(f.options) ==>
      r == Some(MissingOptions)
    ensures r.None? <==>
      !Incomplete(f) && ParseInt(Trim(f.score)).Some? && !(OptionsVisible(f.qtype) && IsBlank(f.options))
  {
    if Incomplete(f) then Some(MissingField)
    else if ParseInt(Trim(f.score)).None? then Some(BadScore)
    else if OptionsVisible(f.qtype) && IsBlank(f.options) then Some(MissingOptions)
    else None
  }

  /** The options area's text as a list: split on line breaks, blank lines dropped. */
  function OptionLines(text: string): (r: seq<string>)
    ensures forall i :: 0 <= i < |r| ==> !IsBlank(r[i]) && '\n' !in r[i]
  {
    var parts := SplitOn(text, '\n');
    var r := NonBlank(parts);
    NonBlankKeepsFree(parts, '\n');
    r
  }

  /**
   * A question the editor can produce, and reproduce: a type, a trimmed
   * non-blank title and answer, a 32-bit score, and options (at least one
   * non-blank line each) exactly when it is a choice question.
   */
  predicate WellFormed(q: Question) {
    && q.qtype.Some?
    && !IsBlank(q.title) && Trim(q.title) == q.title
    && q.correctAnswer.Some? && !IsBlank(q.correctAnswer.value) && Trim(q.correctAnswer.value) == q.correctAnswer.value
    && q.score.Some? && InInt32(q.score.value)
    && (OptionsVisible(q.qtype) ==>
         q.options.Some? && |q.options.value| >= 1 &&
         forall i :: 0 <= i < |q.options.value| ==> !IsBlank(q.options.value[i]) && '\n' !in q.options.value[i])
    && (!OptionsVisible(q.qtype) ==> q.options.None?)
  }

  /** What handleSave writes into the question from a form that validated. */
  function Edited(q: Question, f: Form): (r: Question)
    requires Validate(f).None?
    ensures r.id == q.id && r.qtype == f.qtype
  {
    var opts := if OptionsVisible(f.qtype) then Some(OptionLines(f.options)) else None;
    Question(q.id, Trim(f.title), f.qtype, opts, ParseInt(Trim(f.score)), Some(Trim(f.answer)))
  }

  /** Whatever a validated form saves is well formed. */
  lemma EditedWellFormed(q: Question, f: Form)
    requires Validate(f).None?
    ensures WellFormed(Edited(q, f))
  {
    TrimIdempotent(f.title);
    TrimIdempotent(f.answer);
    ChoiceKeepsALine(f);
  }

  /** setQuestion: what the form shows for q; the options area keeps its earlier text when q has no options. */
  function Loaded(q: Question, priorOptions: string): (f: Form)
    ensures f.qtype == q.qtype && f.title == q.title
    ensures q.options.None? ==> f.options == priorOptions
  {
    Form(q.qtype, q.title, q.correctAnswer.GetOr(""), IntToString(q.score.GetOr(0)),
         if q.options.Some? then Join(q.options.value, '\n') else priorOptions)
  }

  /**
   * Opening a well-formed question in the editor and saving it without
   * changes validates and gives the same question back.
   */
  lemma LoadSaveRoundTrip(q: Question, priorOptions: string)
    requires WellFormed(q)
    ensures Validate(Loaded(q, priorOptions)).None?
    ensures Edited(q, Loaded(q, priorOptions)) == q
  {
    var f := Loaded(q, priorOptions);
    var s := q.score.value;
    ParseIntOfIntToString(s);
    var digits := IntToString(s);
    TrimOfTrimmed(digits);
    if OptionsVisible(q.qtype) {
      var o := q.options.value;
      JoinNotBlank(o, '\n');
      SplitOnJoin(o, '\n');
      NonBlankKeepsNonBlank(o);
    }
  }

  /** Trimming twice is trimming once. */
  lemma TrimIdempotent(s: string)
    ensures Trim(Trim(s)) == Trim(s)
  {
    TrimOfTrimmed(Trim(s));
  }

  /** A joined text is not blank when its first part is not. */
  lemma JoinNotBlank(parts: seq<string>, sep: char)
    requires |parts| >= 1 && !IsBlank(parts[0])
    ensures !IsBlank(Join(parts, sep))
  {
    var j := Join(parts, sep);
    assert j[..|parts[0]|] == parts[0];
    BlankIffAllTrimmable(parts[0]);
    BlankIffAllTrimmable(j);
  }

  /** A validated choice form keeps at least one option line. */
  lemma ChoiceKeepsALine(f: Form)
    requires Validate(f).None?
    ensures OptionsVisible(f.qtype) ==> |OptionLines(f.options)| >= 1
  {
    if OptionsVisible(f.qtype) {
      SomeLineNotBlank(f.options);
    }
  }

  /** Text that is not blank keeps at least one option line. */
  lemma SomeLineNotBlank(text: string)
    requires !IsBlank(text)
    ensures |OptionLines(text)| >= 1
  {
    var parts := SplitOn(text, '\n');
    JoinSplitOn(text, '\n');
    NonBlankEmpty(parts);
    if forall i :: 0 <= i < |parts| ==> IsBlank(parts[i]) {
      JoinOfBlank(parts, '\n');
    }
  }

  /** Blank parts joined by a blank separator stay blank. */
  lemma {:induction false} JoinOfBlank(parts: seq<string>, sep: char)
    requires IsTrimmable(sep)
    requires forall i :: 0 <= i < |parts| ==> IsBlank(parts[i])
    ensures IsBlank(Join(parts, sep))
  {
    if |parts| == 1 {
    } else if |parts| > 1 {
      JoinOfBlank(parts[1..], sep);
      var rest := Join(parts[1..], sep);
      BlankIffAllTrimmable(parts[0]);
      BlankIffAllTrimmable(rest);
      var j := parts[0] + [sep] + rest;
      assert forall i :: 0 <= i < |j| ==> IsTrimmable(j[i]) by {
        forall i | 0 <= i < |j|
          ensures IsTrimmable(j[i])
        {
          if i < |parts[0]| {
            assert j[i] == parts[0][i];
          } else if i > |parts[0]| {
            assert j[i] == rest[i - |parts[0]| - 1];
          }
        }
      }
      BlankIffAllTrimmable(j);
    }
  }

  class QuestionEditorController {
    /** The question being edited; null until setQuestion. */
    var question: Option<Question>
    var form: Form
    var optionsVisible: bool
    var saved: bool
    var closed: bool
    /** Warning alerts shown, in order. */
    var warnings: seq<string>

    /** Once a type is selected, the options area shows exactly for choice questions. */
    ghost predicate Valid()
      reads this
    {
      form.qtype.Some? ==> optionsVisible == OptionsVisible(form.qtype)
    }

    /** Loading the dialog: empty controls, no type, the layout's initial visibility, not saved. */
    constructor(initiallyVisible: bool)
      ensures Valid()
      ensures question.None? && form == Form(None, "", "", "", "") && optionsVisible == initiallyVisible
      ensures !saved && !closed && warnings == []
    {
      question := None;
      form := Form(None, "", "", "", "");
      optionsVisible := initiallyVisible;
      saved := false;
      closed := false;
      warnings := [];
    }

    /** The type box's selection listener runs only when the value changes. */
    method SelectType(t: Option<QuestionType>)
      requires Valid()
      modifies this
      ensures Valid()
      ensures form == old(form).(qtype := t)
      ensures optionsVisible == (if t != old(form.qtype) then OptionsVisible(t) else old(optionsVisible))
      ensures question == old(question) && saved == old(saved) && closed == old(closed) && warnings == old(warnings)
    {
      var changed := t != form.qtype;
      form := form.(qtype := t);
      if changed {
        optionsVisible := OptionsVisible(t);
      }
    }

    /** The user types into the four text controls. */
    method EditTexts(title: string, answer: string, score: string, options: string)
      requires Valid()
      modifies this
      ensures Valid()
      ensures form == Form(old(form.qtype), title, answer, score, options)
      ensures question == old(question) && optionsVisible == old(optionsVisible)
      ensures saved == old(saved) && closed == old(closed) && warnings == old(warnings)
    {
      form := Form(form.qtype, title, answer, score, options);
    }

    /** setQuestion: the controls show the question; a null score shows as 0. */
    method SetQuestion(q: Question)
      requires Valid()
      modifies this
      ensures Valid()
      ensures question == Some(q)
      ensures form == Loaded(q, old(form.options))
      ensures optionsVisible == (if q.qtype != old(form.qtype) then OptionsVisible(q.qtype) else old(optionsVisible))
      ensures saved == old(saved) && closed == old(closed) && warnings == old(warnings)
    {
      question := Some(q);
      SelectType(q.qtype);
      var options := form.options;
      if q.options.Some? {
        options := Join(q.options.value, '\n');
      }
      EditTexts(q.title, q.correctAnswer.GetOr(""), IntToString(q.score.GetOr(0)), options);
    }

    /** isInputValid: shows the first warning the form deserves, if any. */
    method IsInputValid() returns (ok: bool)
      modifies this
      ensures ok <==> Validate(form).None?
      ensures !ok ==> warnings == old(warnings) + [ProblemText(Validate(form).value)]
      ensures ok ==> warnings == old(warnings)
      ensures question == old(question) && form == old(form) && optionsVisible == old(optionsVisible)
      ensures saved == old(saved) && closed == old(closed)
    {
      var warning := Validate(form);
      ok := warning.None?;
      if !ok {
        warnings := warnings + [ProblemText(warning.value)];
      }
    }

    /**
     * handleSave: an invalid form shows its first warning and changes
     * nothing else; a valid one is written into the question, which is then
     * well formed, and the dialog closes as saved.
     */
    method HandleSave()
      requires Valid()
      modifies this
      ensures Valid()
      ensures form == old(form) && optionsVisible == old(optionsVisible)
      ensures Validate(old(form)).Some? ==>
        warnings == old(warnings) + [ProblemText(Validate(old(form)).value)] &&
        question == old(question) && saved == old(saved) && closed == old(closed)
      ensures Validate(old(form)).None? ==> warnings == old(warnings)
      ensures Validate(old(form)).None? && old(question).None? ==>
        question == old(question) && saved == old(saved) && closed == old(closed)
      ensures Validate(old(form)).None? && old(question).Some? ==>
        question == Some(Edited(old(question).value, old(form))) && WellFormed(question.value) && saved && closed
    {
      var ok := IsInputValid();
      if !ok {
        return;
      }
      if question.None? {
        // question.setType on a null question throws before anything is written
        return;
      }
      var q := question.value;
      var options: Option<seq<string>> := None;
      if optionsVisible {
        options := Some(OptionLines(form.options));
      }
      var edited := Question(q.id, Trim(form.title), form.qtype, options, ParseInt(Trim(form.score)), Some(Trim(form.answer)));
      assert edited == Edited(q, form);
      EditedWellFormed(q, form);
      question := Some(edited);
      saved := true;
      closed := true;
    }

    /** handleCancel: the dialog closes and nothing is saved. */
    method HandleCancel()
      modifies this
      ensures closed
      ensures question == old(question) && form == old(form) && optionsVisible == old(optionsVisible)
      ensures saved == old(saved) && warnings == old(warnings)
    {
      closed := true;
    }
  }
}
