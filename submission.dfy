/**
 * SubmissionServiceImpl: the coordinator's in-memory table of the latest
 * answers per student for the active exam, persisted through an external
 * batch save, plus the listeners told about every change.
 */
module Submission {
  import opened Wrappers
  import opened Model

  /** A listener's identity, as List.contains and List.remove compare it. */
  type ListenerId = nat

  /** One call of answerDAO.saveBatch(examId, studentId, answers). */
  datatype SaveCall = SaveCall(examId: string, studentId: string, answers: seq<StudentAnswer>)

  predicate NoDuplicates<T(==)>(s: seq<T>) {
    forall i, j :: 0 <= i < j < |s| ==> s[i] != s[j]
  }

  /** List.remove(o): drops the first occurrence, if any. */
  function RemoveFirst<T(==)>(s: seq<T>, x: T): (r: seq<T>)
    ensures x !in s ==> r == s
    ensures x in s ==> |r| == |s| - 1 && multiset(r) == multiset(s) - multiset{x}
    ensures forall y :: y in r ==> y in s
  {
    if s == [] then []
    else if s[0] == x then
      assert s == [s[0]] + s[1..];
      s[1..]
    else
      assert s == [s[0]] + s[1..];
      [s[0]] + RemoveFirst(s[1..], x)
  }

  /** In a list without duplicates, removing an element removes it entirely and keeps the rest unique. */
  lemma {:induction false} RemoveFirstOfUnique<T>(s: seq<T>, x: T)
    requires NoDuplicates(s)
    ensures x !in RemoveFirst(s, x)
    ensures NoDuplicates(RemoveFirst(s, x))
  {
    if s != [] {
      assert s[0] !in s[1..];
      if s[0] == x {
        assert x !in s[1..];
      } else {
        RemoveFirstOfUnique(s[1..], x);
      }
    }
  }

  /** Replacing a student's list keeps the count; only a new student raises it by one. */
  lemma CountAfterPut(m: map<string, seq<StudentAnswer>>, k: string, v: seq<StudentAnswer>)
    ensures k in m ==> |m[k := v]| == |m|
    ensures k !in m ==> |m[k := v]| == |m| + 1
  {
    if k in m {
      assert m[k := v].Keys == m.Keys;
    } else {
      assert m[k := v].Keys == m.Keys + {k};
    }
  }

  class SubmissionService {
    var submissions: map<string, seq<StudentAnswer>>
    var activeExam: Option<ExamPaper>
    var listeners: seq<ListenerId>
    /** The batch saves issued, in order. */
    var saves: seq<SaveCall>
    /** The listener notifications delivered, in order. */
    var notified: seq<ListenerId>

    ghost predicate Valid()
      reads this
    {
      NoDuplicates(listeners)
    }

    constructor()
      ensures Valid()
      ensures submissions == map[] && activeExam == None && listeners == []
      ensures saves == [] && notified == []
    {
      submissions := map[];
      activeExam := None;
      listeners := [];
      saves := [];
      notified := [];
    }

    /**
     * processSubmission: ignored with no active exam or a null argument.
     * Otherwise the batch is saved first; when the save fails (saveOk is
     * false) nothing else happens; when it succeeds the student's list is
     * replaced wholesale and every listener is told once, in order.
     */
    method ProcessSubmission(studentId: Option<string>, answers: Option<seq<StudentAnswer>>, saveOk: bool)
      requires Valid()
      modifies this
      ensures Valid()
      ensures activeExam == old(activeExam) && listeners == old(listeners)
      ensures old(activeExam).None? || studentId.None? || answers.None? ==>
        submissions == old(submissions) && saves == old(saves) && notified == old(notified)
      ensures old(activeExam).Some? && studentId.Some? && answers.Some? ==>
        && saves == old(saves) + [SaveCall(old(activeExam).value.examId, studentId.value, answers.value)]
        && (saveOk ==> submissions == old(submissions)[studentId.value := answers.value]
                       && notified == old(notified) + listeners)
        && (!saveOk ==> submissions == old(submissions) && notified == old(notified))
    {
      if activeExam.None? {
        return;
      }
      if studentId.None? || answers.None? {
        return;
      }
      saves := saves + [SaveCall(activeExam.value.examId, studentId.value, answers.value)];
      if !saveOk {
        return;
      }
      submissions := submissions[studentId.value := answers.value];
      NotifyListeners();
    }

    /** setActiveExam: replaces the field only; earlier submissions stay. */
    method SetActiveExam(exam: Option<ExamPaper>)
      modifies this
      ensures activeExam == exam
      ensures submissions == old(submissions) && listeners == old(listeners)
      ensures saves == old(saves) && notified == old(notified)
    {
      activeExam := exam;
    }

    /** getSubmissionCount: one per distinct student id. */
    function SubmissionCount(): (n: nat)
      reads this
      ensures n == |submissions.Keys|
    {
      |submissions|
    }

    /** clearSubmissions: the table empties and every listener is told. */
    method ClearSubmissions()
      modifies this
      ensures submissions == map[] && SubmissionCount() == 0
      ensures notified == old(notified) + listeners
      ensures activeExam == old(activeExam) && listeners == old(listeners) && saves == old(saves)
    {
      submissions := map[];
      NotifyListeners();
    }

    /** addListener: a listener already present is not added again. */
    method AddListener(l: ListenerId)
      requires Valid()
      modifies this
      ensures Valid()
      ensures l in listeners
      ensures listeners == if l in old(listeners) then old(listeners) else old(listeners) + [l]
      ensures submissions == old(submissions) && activeExam == old(activeExam)
      ensures saves == old(saves) && notified == old(notified)
    {
      if l !in listeners {
        listeners := listeners + [l];
      }
    }

    /** removeListener: afterwards the listener is gone. */
    method RemoveListener(l: ListenerId)
      requires Valid()
      modifies this
      ensures Valid()
      ensures listeners == RemoveFirst(old(listeners), l) && l !in listeners
      ensures submissions == old(submissions) && activeExam == old(activeExam)
      ensures saves == old(saves) && notified == old(notified)
    {
      RemoveFirstOfUnique(listeners, l);
      listeners := RemoveFirst(listeners, l);
    }

    /** notifyListeners: each listener once, in registration order. */
    method NotifyListeners()
      modifies this
      ensures notified == old(notified) + listeners
      ensures submissions == old(submissions) && activeExam == old(activeExam)
      ensures listeners == old(listeners) && saves == old(saves)
    {
      var i := 0;
      while i < |listeners|
        invariant 0 <= i <= |listeners|
        invariant notified == old(notified) + listeners[..i]
        invariant submissions == old(submissions) && activeExam == old(activeExam)
        invariant listeners == old(listeners) && saves == old(saves)
      {
        notified := notified + [listeners[i]];
        i := i + 1;
      }
      assert listeners[..i] == listeners;
    }
  }
}
