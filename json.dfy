/**
 * The JSON side of the protocol.  A JSON text is a tree (Json); the
 * library that turns trees into UTF-8 text and back is an abstract pair
 * of functions (TextCodec) assumed to round-trip.  What the code itself
 * decides is written out concretely: which properties each data class
 * reads and writes, that absent properties read as null, that unknown
 * properties are ignored, and which shapes make a conversion throw.
 */
module Json {
  import opened Wrappers
  import opened Model
  import opened Text

  /** A JSON value; numbers are integers. */
  datatype Json =
    | JNull
    | JBool(b: bool)
    | JNum(n: int)
    | JStr(s: string)
    | JArr(items: seq<Json>)
    | JObj(fields: map<string, Json>)

  /** A byte on the wire. */
  type byte = x: int | 0 <= x < 256

  /** The text codec: object to UTF-8 JSON bytes, and UTF-8 JSON bytes to a tree (None: parse error). */
  datatype TextCodec = TextCodec(write: Json -> seq<byte>, read: seq<byte> -> Option<Json>)

  /**
   * A bytewise view of `s.trim().isEmpty()` on the UTF-8 decoding of a
   * buffer: every byte is an ASCII char at most U+0020 (no byte of a
   * multi-byte sequence decodes to such a char).
   */
  predicate AllBlank(bs: seq<byte>) {
    forall i :: 0 <= i < |bs| ==> bs[i] <= 0x20
  }

  /** The codec reads back what it wrote, and never writes blank text. */
  ghost predicate Faithful(c: TextCodec) {
    forall j :: c.read(c.write(j)) == Some(j) && !AllBlank(c.write(j))
  }

  // ------------------------------------------------------------- fields

  /** A missing property reads as null when Jackson fills a bean. */
  function Field(m: map<string, Json>, k: string): (r: Json)
    ensures k !in m ==> r == JNull
    ensures k in m ==> r == m[k]
  {
    if k in m then m[k] else JNull
  }

  function StrJson(o: Option<string>): Json {
    match o
    case None => JNull
    case Some(s) => JStr(s)
  }

  /** The literal text of a boolean token. */
  function BoolText(b: bool): string {
    if b then "true" else "false"
  }

  /*
   * The readers below follow the scalar coercions of Jackson's default
   * ObjectMapper (2.13 and later: scalar coercion allowed, and an empty or
   * all-blank string read as null for a boolean or an integer, while an
   * enum refuses both).
   */

  /**
   * A String property: a string as itself, null as null, and a number or
   * boolean as its literal text; an array or object throws.
   */
  function StrFromJson(j: Json): (r: Result<Option<string>>)
    ensures r.Ok? <==> !j.JArr? && !j.JObj?
    ensures r == Ok(None) <==> j.JNull?
    ensures j.JNull? || j.JStr? ==> r.Ok? && StrJson(r.value) == j
    ensures j.JNum? ==> r.Ok? && r.value.Some? && ParseInRange(r.value.value, j.n, j.n) == Some(j.n)
    ensures j.JBool? ==> r == Ok(Some(BoolText(j.b)))
  {
    match j
    case JNull => Ok(None)
    case JStr(s) => Ok(Some(s))
    case JNum(n) =>
      ParseInRangeOfIntToString(n, n, n);
      Ok(Some(IntToString(n)))
    case JBool(b) => Ok(Some(BoolText(b)))
    case _ => Err
  }

  const TrueTexts: set<string> := {"true", "True", "TRUE"}
  const FalseTexts: set<string> := {"false", "False", "FALSE"}

  /**
   * A primitive boolean property: null or absent leaves it false; a
   * number is true unless zero; a string is read after trimming as one of
   * true/True/TRUE or false/False/FALSE, and an empty or blank string and
   * the text "null" read as false; any other string, an array or an object
   * throws.
   */
  function BoolFromJson(j: Json): (r: Result<bool>)
    ensures j.JNull? ==> r == Ok(false)
    ensures j.JBool? ==> r == Ok(j.b)
    ensures j.JNum? ==> r == Ok(j.n != 0)
    ensures j.JArr? || j.JObj? ==> r == Err
    ensures j.JStr? ==> (r == Ok(true) <==> Trim(j.s) in TrueTexts)
    ensures j.JStr? ==> (r == Ok(false) <==> IsBlank(j.s) || Trim(j.s) in FalseTexts || Trim(j.s) == "null")
  {
    match j
    case JNull => Ok(false)
    case JBool(b) => Ok(b)
    case JNum(n) => Ok(n != 0)
    case JStr(s) =>
      var t := Trim(s);
      if t == [] || t in FalseTexts || t == "null" then Ok(false)
      else if t in TrueTexts then Ok(true)
      else Err
    case _ => Err
  }

  function IntJson(o: Option<int>): Json {
    match o
    case None => JNull
    case Some(n) => JNum(n)
  }

  /**
   * A Long property: a number as itself; null, an empty or blank string
   * and a string whose trim is "null" as null; any other string is trimmed and
   * read with Long.parseLong, failing when that throws; a boolean, an
   * array or an object throws.
   */
  function IntFromJson(j: Json): (r: Result<Option<int>>)
    ensures j.JNull? ==> r == Ok(None)
    ensures j.JNum? ==> r == Ok(Some(j.n))
    ensures j.JBool? || j.JArr? || j.JObj? ==> r == Err
    ensures j.JStr? ==> (r == Ok(None) <==> IsBlank(j.s) || Trim(j.s) == "null")
    ensures j.JStr? ==> (r.Err? <==> !IsBlank(j.s) && Trim(j.s) != "null" && ParseLong(Trim(j.s)).None?)
    ensures j.JStr? && r.Ok? && r.value.Some? ==> ParseLong(Trim(j.s)) == Some(r.value.value)
  {
    match j
    case JNull => Ok(None)
    case JNum(n) => Ok(Some(n))
    case JStr(s) =>
      var t := Trim(s);
      if t == [] || t == "null" then Ok(None)
      else
        (match ParseLong(t) case Some(n) => Ok(Some(n)) case None => Err)
    case _ => Err
  }

  /** A string of nothing but characters at or below space reads as null in both scalar readers. */
  lemma BlankStringIsNull(s: string)
    requires forall i :: 0 <= i < |s| ==> IsTrimmable(s[i])
    ensures BoolFromJson(JStr(s)) == Ok(false)
    ensures IntFromJson(JStr(s)) == Ok(None)
  {
    BlankIffAllTrimmable(s);
  }

  /** A number written as a string reads as the number wherever it fits a long. */
  lemma NumericStringIsNumber(n: int)
    requires InInt64(n)
    ensures IntFromJson(JStr(IntToString(n))) == IntFromJson(JNum(n))
  {
    var s := IntToString(n);
    ParseLongOfIntToString(n);
    assert s[0] != ' ' by {
      if n >= 0 { assert IsDigit(s[0]); }
    }
    assert !IsTrimmable(s[|s| - 1]) by {
      if n >= 0 { assert IsDigit(s[|s| - 1]); } else { assert s[|s| - 1] == s[1..][|s| - 2]; }
    }
    TrimOfTrimmed(s);
  }

  /** A boolean read into a String and back into a boolean is itself. */
  lemma BoolTextIsBool(b: bool)
    ensures StrFromJson(JBool(b)).Ok?
    ensures BoolFromJson(JStr(StrFromJson(JBool(b)).value.value)) == Ok(b)
  {
    TrimOfTrimmed(BoolText(b));
  }

  // ------------------------------------------------------------ Student

  const StudentKeys: set<string> := {"id", "name", "ip", "online"}

  function StudentToJson(s: Student): Json {
    JObj(map["id" := StrJson(s.id), "name" := StrJson(s.name), "ip" := StrJson(s.ip), "online" := JBool(s.online)])
  }

  /** Converting a body to Student: null gives null, an object gives a bean, anything else throws. */
  function StudentFromJson(j: Json): (r: Result<Option<Student>>)
    ensures j.JNull? ==> r == Ok(None)
    ensures !j.JNull? && !j.JObj? ==> r == Err
  {
    match j
    case JNull => Ok(None)
    case JObj(m) =>
      var id := StrFromJson(Field(m, "id"));
      var name := StrFromJson(Field(m, "name"));
      var ip := StrFromJson(Field(m, "ip"));
      var online := BoolFromJson(Field(m, "online"));
      if id.Ok? && name.Ok? && ip.Ok? && online.Ok? then
        Ok(Some(Student(id.value, name.value, ip.value, online.value)))
      else Err
    case _ => Err
  }

  lemma StudentRoundTrip(s: Student)
    ensures StudentFromJson(StudentToJson(s)) == Ok(Some(s))
  {
  }

  /** A property the class does not have changes nothing. */
  lemma StudentIgnoresUnknown(m: map<string, Json>, k: string, v: Json)
    requires k !in StudentKeys
    ensures StudentFromJson(JObj(m[k := v])) == StudentFromJson(JObj(m))
  {
    assert forall f :: f in StudentKeys ==> Field(m[k := v], f) == Field(m, f);
  }

  // ------------------------------------------------------ LoginResponse

  function LoginResponseToJson(r: LoginResponse): Json {
    JObj(map["success" := JBool(r.success), "message" := StrJson(r.message)])
  }

  function LoginResponseFromJson(j: Json): (r: Result<Option<LoginResponse>>)
    ensures j.JNull? ==> r == Ok(None)
    ensures !j.JNull? && !j.JObj? ==> r == Err
  {
    match j
    case JNull => Ok(None)
    case JObj(m) =>
      var success := BoolFromJson(Field(m, "success"));
      var message := StrFromJson(Field(m, "message"));
      if success.Ok? && message.Ok? then Ok(Some(LoginResponse(success.value, message.value))) else Err
    case _ => Err
  }

  lemma LoginResponseRoundTrip(r: LoginResponse)
    ensures LoginResponseFromJson(LoginResponseToJson(r)) == Ok(Some(r))
  {
  }

  // ------------------------------------------------- List<StudentAnswer>

  function AnswerToJson(a: StudentAnswer): Json {
    JObj(map["questionId" := StrJson(a.questionId), "answer" := StrJson(a.answer)])
  }

  function AnswerFromJson(j: Json): (r: Result<StudentAnswer>)
    ensures !j.JObj? ==> r == Err
  {
    match j
    case JObj(m) =>
      var qid := StrFromJson(Field(m, "questionId"));
      var ans := StrFromJson(Field(m, "answer"));
      if qid.Ok? && ans.Ok? then Ok(StudentAnswer(qid.value, ans.value)) else Err
    case _ => Err
  }

  lemma AnswerRoundTrip(a: StudentAnswer)
    ensures AnswerFromJson(AnswerToJson(a)) == Ok(a)
  {
  }

  function AnswersToJson(list: seq<StudentAnswer>): (r: Json)
    ensures r.JArr? && |r.items| == |list|
    ensures forall i :: 0 <= i < |list| ==> r.items[i] == AnswerToJson(list[i])
  {
    JArr(seq(|list|, i requires 0 <= i < |list| => AnswerToJson(list[i])))
  }

  /** Each array element must convert; one that does not fails the whole list. */
  function AnswerItemsFromJson(items: seq<Json>): (r: Result<seq<StudentAnswer>>)
    ensures r.Ok? ==> |r.value| == |items|
    ensures r.Ok? <==> forall i :: 0 <= i < |items| ==> AnswerFromJson(items[i]).Ok?
    ensures r.Ok? ==> forall i :: 0 <= i < |items| ==> r.value[i] == AnswerFromJson(items[i]).value
  {
    if items == [] then Ok([])
    else
      match (AnswerFromJson(items[0]), AnswerItemsFromJson(items[1..]))
      case (Ok(a), Ok(rest)) => Ok([a] + rest)
      case _ => Err
  }

  /** Converting a body to List<StudentAnswer>: null gives null. */
  function AnswersFromJson(j: Json): (r: Result<Option<seq<StudentAnswer>>>)
    ensures j.JNull? ==> r == Ok(None)
    ensures !j.JNull? && !j.JArr? ==> r == Err
  {
    match j
    case JNull => Ok(None)
    case JArr(items) =>
      (match AnswerItemsFromJson(items) case Ok(list) => Ok(Some(list)) case Err => Err)
    case _ => Err
  }

  lemma AnswersRoundTrip(list: seq<StudentAnswer>)
    ensures AnswersFromJson(AnswersToJson(list)) == Ok(Some(list))
  {
    var items := AnswersToJson(list).items;
    forall i | 0 <= i < |items| ensures AnswerFromJson(items[i]) == Ok(list[i]) {
      AnswerRoundTrip(list[i]);
    }
    var r := AnswerItemsFromJson(items);
    assert r.Ok?;
    assert r.value == list;
  }

  // --------------------------------------------------- published paper

  function TypeJson(t: Option<QuestionType>): Json {
    match t
    case None => JNull
    case Some(k) => JStr(QuestionTypeName(k))
  }

  function OptionsJson(o: Option<seq<string>>): Json {
    match o
    case None => JNull
    case Some(xs) => JArr(seq(|xs|, i requires 0 <= i < |xs| => JStr(xs[i])))
  }

  const QuestionDTOKeys: set<string> := {"id", "examId", "title", "type", "options", "score"}

  function QuestionDTOToJson(q: QuestionDTO): (r: Json)
    ensures r.JObj? && r.fields.Keys == QuestionDTOKeys
  {
    JObj(map[
      "id" := JStr(q.id), "examId" := StrJson(q.examId), "title" := JStr(q.title),
      "type" := TypeJson(q.qtype), "options" := OptionsJson(q.options), "score" := IntJson(q.score)])
  }

  function ExamPaperDTOToJson(p: ExamPaperDTO): (r: Json)
    ensures r.JObj? && "questions" in r.fields && r.fields["questions"].JArr?
    ensures |r.fields["questions"].items| == |p.questions|
    ensures forall i :: 0 <= i < |p.questions| ==> r.fields["questions"].items[i] == QuestionDTOToJson(p.questions[i])
  {
    var qs := seq(|p.questions|, i requires 0 <= i < |p.questions| => QuestionDTOToJson(p.questions[i]));
    JObj(map[
      "examId" := JStr(p.examId), "title" := JStr(p.title), "durationMinutes" := JNum(p.durationMinutes),
      "startTime" := JNum(p.startTime), "questions" := JArr(qs)])
  }

  /** The broadcast text of a paper has no "correctAnswer" property in any question. */
  lemma PublishedPaperHasNoAnswerKey(p: ExamPaperDTO)
    ensures forall i :: 0 <= i < |p.questions| ==>
      "correctAnswer" !in ExamPaperDTOToJson(p).fields["questions"].items[i].fields
  {
  }

  // ----------------------------------------------------------- envelope

  /** Message<Object>: kind, timestamp and the still-untyped body. */
  datatype Envelope = Envelope(kind: Option<MessageType>, timestamp: Option<int>, body: Json)

  /** `new Message<>(type, body)`: the timestamp is the clock reading. */
  function NewMessage(kind: MessageType, now: int, body: Json): (e: Envelope)
    ensures e.kind == Some(kind) && e.timestamp == Some(now) && e.body == body
  {
    Envelope(Some(kind), Some(now), body)
  }

  const EnvelopeKeys: set<string> := {"type", "timestamp", "body"}

  function KindJson(k: Option<MessageType>): Json {
    match k
    case None => JNull
    case Some(t) => JStr(KindName(t))
  }

  /** A string Jackson reads as an enum's position: it starts with a digit and is an int in range. */
  predicate IsOrdinalText(t: string) {
    t != [] && IsDigit(t[0]) && ParseInt(t).Some? && 0 <= ParseInt(t).value < 8
  }

  /**
   * An enum property: null as null; a number as the constant at that
   * position; a string, trimmed, as the constant of that name or else,
   * when it starts with a digit, as the constant at the position it
   * parses to; anything else throws.
   */
  function KindFromJson(j: Json): (r: Result<Option<MessageType>>)
    ensures j.JNull? ==> r == Ok(None)
    ensures j.JNum? ==> r == (if 0 <= j.n < 8 then Ok(KindOfOrdinal(j.n)) else Err)
    ensures j.JStr? ==> (r.Ok? <==> KindOfName(Trim(j.s)).Some? || IsOrdinalText(Trim(j.s)))
    ensures j.JStr? && KindOfName(Trim(j.s)).Some? ==> r == Ok(KindOfName(Trim(j.s)))
    ensures j.JStr? && r.Ok? && KindOfName(Trim(j.s)).None? ==> r == Ok(KindOfOrdinal(ParseInt(Trim(j.s)).value))
    ensures !j.JNull? && !j.JStr? && !j.JNum? ==> r == Err
    ensures !j.JNull? && r.Ok? ==> r.value.Some?
  {
    match j
    case JNull => Ok(None)
    case JStr(s) =>
      var t := Trim(s);
      (match KindOfName(t)
       case Some(k) => Ok(Some(k))
       case None => if IsOrdinalText(t) then Ok(KindOfOrdinal(ParseInt(t).value)) else Err)
    case JNum(n) =>
      (match KindOfOrdinal(n) case Some(k) => Ok(Some(k)) case None => Err)
    case _ => Err
  }

  /** A type written as its position in a string names the same constant as the bare position. */
  lemma OrdinalStringIsOrdinal(k: MessageType)
    ensures KindFromJson(JStr(IntToString(KindOrdinal(k)))) == KindFromJson(JNum(KindOrdinal(k))) == Ok(Some(k))
  {
    var n := KindOrdinal(k);
    var s := IntToString(n);
    assert s == [DigitChar(n)];
    ParseIntOfIntToString(n);
    TrimOfTrimmed(s);
  }

  function EnvelopeToJson(e: Envelope): (r: Json)
    ensures r.JObj? && r.fields.Keys == EnvelopeKeys
  {
    JObj(map["type" := KindJson(e.kind), "timestamp" := IntJson(e.timestamp), "body" := e.body])
  }

  /**
   * Reading Message<Object>: an object gives an envelope whose body is the
   * raw tree; the JSON literal null reads as null, which the decoder then
   * fails to pass on; anything else throws.
   */
  function EnvelopeFromJson(j: Json): (r: Result<Envelope>)
    ensures !j.JObj? ==> r == Err
    ensures r.Ok? ==> r.value.body == Field(j.fields, "body")
  {
    match j
    case JObj(m) =>
      var kind := KindFromJson(Field(m, "type"));
      var ts := IntFromJson(Field(m, "timestamp"));
      if kind.Ok? && ts.Ok? then Ok(Envelope(kind.value, ts.value, Field(m, "body"))) else Err
    case _ => Err
  }

  lemma EnvelopeRoundTrip(e: Envelope)
    ensures EnvelopeFromJson(EnvelopeToJson(e)) == Ok(e)
  {
    match e.kind
    case None =>
    case Some(k) =>
      KindNameTrimmed(k);
      assert KindFromJson(JStr(KindName(k))) == Ok(Some(k));
  }

  /** A constant's name has no surrounding blank, so trimming keeps it. */
  lemma KindNameTrimmed(k: MessageType)
    ensures Trim(KindName(k)) == KindName(k)
  {
    var s := KindName(k);
    assert !IsTrimmable(s[0]) && !IsTrimmable(s[|s| - 1]);
    TrimOfTrimmed(s);
  }

  /** Properties the envelope does not declare are ignored rather than failing the read. */
  lemma EnvelopeIgnoresUnknown(m: map<string, Json>, k: string, v: Json)
    requires k !in EnvelopeKeys
    ensures EnvelopeFromJson(JObj(m[k := v])) == EnvelopeFromJson(JObj(m))
  {
    assert forall f :: f in EnvelopeKeys ==> Field(m[k := v], f) == Field(m, f);
  }
}
