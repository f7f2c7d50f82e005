/**
 * ExamController: how the participant's exam page is laid out from the
 * published paper and which answer each control records.  Only the data
 * the page derives is modelled: the numbered titles, the kind of control
 * per question, and the (question id, answer) pairs handed to the session.
 */
module ExamView {
  import opened Wrappers
  import opened Model
  import opened Text
  import opened Sorting

  /** parseOption: "B. text" gives "B"; text without a '.' (or null) is returned as it is. */
  function ParseOption(text: Option<string>): (r: Option<string>)
    ensures text.None? ==> r.None?
    ensures text.Some? && '.' !in text.value ==> r == text
    ensures text.Some? && '.' in text.value ==>
      r.Some? && exists k :: 0 <= k < |text.value| && text.value[k] == '.' && '.' !in text.value[..k] && r.value == Trim(text.value[..k])
  {
    match text
    case None => None
    case Some(t) =>
      match IndexOf(t, '.')
      case None => Some(t)
      case Some(k) => Some(Trim(t[..k]))
  }

  /** The letter never contains the separator. */
  lemma ParseOptionLetter(t: string)
    ensures ParseOption(Some(t)).Some?
    ensures '.' !in ParseOption(Some(t)).value
  {
    if '.' in t {
      var k := IndexOf(t, '.').value;
      TrimKeepsOut(t[..k], '.');
    }
  }

  /** Trimming adds no char. */
  lemma TrimKeepsOut(s: string, c: char)
    requires c !in s
    ensures c !in Trim(s)
  {
    var a := TrimStart(s);
    TrimStartDrops(s);
    assert forall i :: 0 <= i < |a| ==> a[i] == s[|s| - |a| + i];
    var b := TrimEnd(a);
    TrimEndTakes(a);
    assert forall i :: 0 <= i < |b| ==> b[i] == a[i];
  }

  /** The options a control offers: a judge question without options gets True/False, any other none. */
  function EffectiveOptions(q: QuestionDTO): (r: seq<string>)
    ensures q.options.Some? ==> r == q.options.value
    ensures q.options.None? && q.qtype == Some(Judge) ==> r == ["T", "F"]
    ensures q.options.None? && q.qtype != Some(Judge) ==> r == []
  {
    match q.options
    case Some(o) => o
    case None => if q.qtype == Some(Judge) then ["T", "F"] else []
  }

  /** The control createAnswerNode builds (an empty radio list shows a placeholder). */
  datatype Control =
    | RadioGroup(options: seq<string>)
    | CheckBoxes(options: seq<string>)
    | NoOptionsBox
    | TextArea
    | Unsupported

  /**
   * createAnswerNode as written: a multiple-choice question without
   * options fills its box with a placeholder but never assigns it, so the
   * result is null (None).
   */
  function CreateAnswerNodeAsWritten(q: QuestionDTO): (r: Option<Control>)
    ensures r.None? <==> q.qtype == Some(MultiChoice) && EffectiveOptions(q) == []
  {
    var options := EffectiveOptions(q);
    match q.qtype
    case Some(SingleChoice) => Some(RadioGroup(options))
    case Some(Judge) => Some(RadioGroup(options))
    case Some(MultiChoice) => if options == [] then None else Some(CheckBoxes(options))
    case Some(FillIn) => Some(TextArea)
    case None => Some(Unsupported)
  }

  /** createAnswerNode with the placeholder box returned, as the other branches do. */
  function CreateAnswerNode(q: QuestionDTO): (r: Control)
    ensures q.qtype == Some(MultiChoice) && EffectiveOptions(q) == [] ==> r == NoOptionsBox
    ensures !(q.qtype == Some(MultiChoice) && EffectiveOptions(q) == []) ==> Some(r) == CreateAnswerNodeAsWritten(q)
  {
    var options := EffectiveOptions(q);
    match q.qtype
    case Some(SingleChoice) => RadioGroup(options)
    case Some(Judge) => RadioGroup(options)
    case Some(MultiChoice) => if options == [] then NoOptionsBox else CheckBoxes(options)
    case Some(FillIn) => TextArea
    case None => Unsupported
  }

  /** A judge question published without options still offers T and F. */
  lemma JudgeDefaults(q: QuestionDTO)
    requires q.qtype == Some(Judge) && q.options.None?
    ensures CreateAnswerNode(q) == RadioGroup(["T", "F"])
  {
  }

  /** "n. title (score分)"; Java prints a null score as "null". */
  function TitleLabel(n: int, q: QuestionDTO): string {
    IntToString(n) + ". " + q.title + " (" + (match q.score case Some(s) => IntToString(s) case None => "null") + "分)"
  }

  /** One laid-out question: its title, its control and the id the control carries. */
  datatype QuestionRow = QuestionRow(caption: string, node: Control, id: string)

  /** The page for the corrected createAnswerNode: every question, numbered from 1 in order. */
  function Page(questions: seq<QuestionDTO>): (r: seq<QuestionRow>)
    ensures |r| == |questions|
    ensures forall i :: 0 <= i < |questions| ==>
      r[i] == QuestionRow(TitleLabel(i + 1, questions[i]), CreateAnswerNode(questions[i]), questions[i].id)
  {
    seq(|questions|, i requires 0 <= i < |questions| =>
      QuestionRow(TitleLabel(i + 1, questions[i]), CreateAnswerNode(questions[i]), questions[i].id))
  }

  /**
   * buildQuestionUI as written: adding a null control to a box's children
   * throws a NullPointerException before anything is added, at the first
   * multiple-choice question without options.  The exception leaves
   * initialize, so the view fails to load and the student is left on the
   * previous scene; `rows` are the rows built before the failure, which
   * belong to the discarded view (`ok` false).
   */
  method BuildQuestionUIAsWritten(questions: seq<QuestionDTO>) returns (rows: seq<QuestionRow>, ok: bool)
    ensures ok <==> forall i :: 0 <= i < |questions| ==> CreateAnswerNodeAsWritten(questions[i]).Some?
    ensures ok ==> rows == Page(questions)
    ensures !ok ==> exists k :: 0 <= k < |questions| && CreateAnswerNodeAsWritten(questions[k]).None? && rows == Page(questions[..k])
  {
    rows := [];
    var questionNumber := 1;
    var i := 0;
    while i < |questions|
      invariant 0 <= i <= |questions| && questionNumber == i + 1
      invariant rows == Page(questions[..i])
      invariant forall j :: 0 <= j < i ==> CreateAnswerNodeAsWritten(questions[j]).Some?
    {
      var q := questions[i];
      var caption := TitleLabel(questionNumber, q);
      var node := CreateAnswerNodeAsWritten(q);
      if node.None? {
        return rows, false;
      }
      PageSnoc(questions, i);
      rows := rows + [QuestionRow(caption, node.value, q.id)];
      questionNumber := questionNumber + 1;
      i := i + 1;
    }
    assert questions[..i] == questions;
    ok := true;
  }

  /** The page of one question more is the page so far and that question's row. */
  lemma PageSnoc(questions: seq<QuestionDTO>, i: nat)
    requires i < |questions|
    ensures Page(questions[..i + 1]) ==
      Page(questions[..i]) + [QuestionRow(TitleLabel(i + 1, questions[i]), CreateAnswerNode(questions[i]), questions[i].id)]
  {
    var a := Page(questions[..i + 1]);
    var b := Page(questions[..i]) + [QuestionRow(TitleLabel(i + 1, questions[i]), CreateAnswerNode(questions[i]), questions[i].id)];
    forall k | 0 <= k <= i ensures a[k] == b[k] {
      assert questions[..i + 1][k] == questions[k];
      if k < i {
        assert questions[..i][k] == questions[k];
      }
    }
  }

  /** buildQuestionUI with the corrected createAnswerNode: every question gets its row. */
  method BuildQuestionUI(questions: seq<QuestionDTO>) returns (rows: seq<QuestionRow>)
    ensures rows == Page(questions)
  {
    rows := [];
    var questionNumber := 1;
    var i := 0;
    while i < |questions|
      invariant 0 <= i <= |questions| && questionNumber == i + 1
      invariant rows == Page(questions[..i])
    {
      var q := questions[i];
      PageSnoc(questions, i);
      rows := rows + [QuestionRow(TitleLabel(questionNumber, q), CreateAnswerNode(q), q.id)];
      questionNumber := questionNumber + 1;
      i := i + 1;
    }
    assert questions[..i] == questions;
  }

  /** A multiple-choice question published without options: the page as written breaks on it. */
  lemma EmptyMultiChoiceBreaksPage(q: QuestionDTO)
    requires q.qtype == Some(MultiChoice) && (q.options.None? || q.options == Some([]))
    ensures CreateAnswerNodeAsWritten(q).None?
    ensures CreateAnswerNode(q) == NoOptionsBox
  {
  }

  // ------------------------------------------------------- recorded answers

  /** A radio selection records the parsed letter of its text. */
  function RadioAnswer(id: string, selectedText: string): (r: (string, Option<string>))
    ensures r.0 == id && r.1 == ParseOption(Some(selectedText))
  {
    (id, ParseOption(Some(selectedText)))
  }

  /** The letter a check box's option text stands for ("" when there is none). */
  function Letter(option: string): string {
    ParseOption(Some(option)).GetOr("")
  }

  /** The letters of the checked boxes, in the order the boxes appear. */
  function CheckedLetters(options: seq<string>, checked: seq<bool>): (r: seq<string>)
    requires |checked| == |options|
    ensures |r| <= |options|
    ensures forall i :: 0 <= i < |options| && checked[i] ==> Letter(options[i]) in r
    ensures forall x :: x in r ==> exists i :: 0 <= i < |options| && checked[i] && x == Letter(options[i])
  {
    if options == [] then []
    else
      var rest := CheckedLetters(options[1..], checked[1..]);
      var r := if checked[0] then [Letter(options[0])] + rest else rest;
      assert forall i :: 0 < i < |options| ==> options[i] == options[1..][i - 1] && checked[i] == checked[1..][i - 1];
      assert forall x :: x in r ==> exists i :: 0 <= i < |options| && checked[i] && x == Letter(options[i]) by {
        forall x | x in r ensures exists i :: 0 <= i < |options| && checked[i] && x == Letter(options[i]) {
          if !(checked[0] && x == Letter(options[0])) {
            assert x in rest;
            var k :| 0 <= k < |options[1..]| && checked[1..][k] && x == Letter(options[1..][k]);
            assert checked[k + 1] && x == Letter(options[k + 1]);
          }
        }
      }
      r
  }

  function Concat(parts: seq<string>): string {
    if parts == [] then "" else parts[0] + Concat(parts[1..])
  }

  /** The multiple-choice answer: the checked letters, sorted as strings, concatenated. */
  function MultiAnswer(options: seq<string>, checked: seq<bool>): string
    requires |checked| == |options|
  {
    Concat(Sort(CheckedLetters(options, checked), StrLe))
  }

  /**
   * The recorded answer depends only on which letters are checked, not on
   * the order the options are listed in or were clicked.
   */
  lemma MultiAnswerOrderFree(o1: seq<string>, c1: seq<bool>, o2: seq<string>, c2: seq<bool>)
    requires |c1| == |o1| && |c2| == |o2|
    requires multiset(CheckedLetters(o1, c1)) == multiset(CheckedLetters(o2, c2))
    ensures MultiAnswer(o1, c1) == MultiAnswer(o2, c2)
  {
    StrLeIsTotal();
    SortEqualIffPermutation(CheckedLetters(o1, c1), CheckedLetters(o2, c2), StrLe);
  }

  /** Checking nothing records the empty answer, which grades as unanswered. */
  lemma NothingChecked(options: seq<string>)
    ensures MultiAnswer(options, seq(|options|, _ => false)) == ""
  {
    NoneChecked(options);
  }

  lemma {:induction false} NoneChecked(options: seq<string>)
    ensures CheckedLetters(options, seq(|options|, _ => false)) == []
  {
    if options != [] {
      assert seq(|options|, _ => false)[1..] == seq(|options[1..]|, _ => false);
      NoneChecked(options[1..]);
    }
  }

  /** A text area records its whole current text on every change. */
  function FillAnswer(id: string, newText: string): (r: (string, Option<string>))
    ensures r == (id, Some(newText))
  {
    (id, Some(newText))
  }
}
