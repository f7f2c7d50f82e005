# ExamSystem core, modelled in Dafny

ExamSystem is a LAN exam application with two sides:

- the **teacher** app runs a Netty server, publishes an exam paper, collects the participants' answers, grades them and exports the results;
- the **student** app logs in to that server, shows the paper, records the answers and counts down the exam time.

Both sides exchange length-prefixed JSON messages.

This project models the core of both sides:

- **Wire protocol** (`Framing`, `Json`). A message is an envelope with a type, a timestamp and a body. The encoder writes a 4-byte big-endian length and then the UTF-8 JSON text. The frame decoder cuts frames longer than 65531 bytes of payload. The decoder drops blank or unreadable frames. The JSON text codec is a parameter with a faithfulness property. The body conversions are written out on a JSON tree.
- **Teacher side**:
  - the online-student registry (`Registry`);
  - login admission and answer routing (`TeacherHandler`);
  - the submission store and its listeners (`Submission`);
  - publishing a paper without answer keys (`ExamService`);
  - the dashboard's exam state machine and countdown (`MainControl`, `Countdown`);
  - grading (`Grading`, with `Sorting` for the order-free multiple-choice comparison);
  - the exam editor and question dialog (`ExamManagement`, `QuestionEditor`);
  - the result list and its CSV export (`Results`).
- **Student side**:
  - the reconnecting client with exponential backoff (`ReconnectControl`);
  - its message handler (`ParticipantHandler`);
  - the session and its exam timer (`ParticipantService`);
  - the login screen (`Login`);
  - the exam page and the answers its controls record (`ExamView`).
- **Shared models**: the data classes (`Model`), Java's `trim`, `Integer.parseInt`, `split`, `String.join` and decimal printing (`Text`), and `Option`/`Result` (`Wrappers`).

The model has the same form as the code it models. Objects whose fields change become classes whose methods state the whole new state. Pure logic becomes functions and lemmas. Loops stay loops with invariants.

The following are parameters of the model, not effects inside it:

- the clock;
- the local IP lookup;
- the remote address;
- database results and failures;
- a dialog's outcome.

Effects on the outside world are recorded as logs inside the objects:

- messages sent;
- timers armed and cancelled, and what a timer hands its callbacks;
- database saves and deletes;
- listener notifications.

## Model

| member | source | states |
|---|---|---|
| Framing.Be32 | common-core/src/main/java/com/bit/examsystem/common/network/MessageEncoder.java:30 | `writeInt` puts exactly four bytes on the wire for any length. |
| Framing.Be32Value | common-core/src/main/java/com/bit/examsystem/common/network/ProtocolInitializer.java:29 | The four-byte length field the frame decoder reads is an unsigned value below 2^32. |
| Framing.Be32RoundTrip | common-core/src/main/java/com/bit/examsystem/common/network/MessageEncoder.java:30 | Reading a written header back gives the written length modulo 2^32, which is how a 32-bit big-endian int wraps. |
| Framing.Frame | common-core/src/main/java/com/bit/examsystem/common/network/MessageEncoder.java:27-33 | A frame is four header bytes followed by exactly the payload. |
| Framing.HeaderIsPayloadLength | common-core/src/test/java/com/bit/examsystem/common/network/CodecTest.java:43-47 | The header value is the number of bytes that follow it. |
| Framing.ByteBuf.constructor | common-core/src/main/java/com/bit/examsystem/common/network/MessageEncoder.java:18 | The output buffer starts empty. |
| Framing.ByteBuf.WriteInt | common-core/src/main/java/com/bit/examsystem/common/network/MessageEncoder.java:30 | The buffer grows by the four header bytes and nothing else. |
| Framing.ByteBuf.WriteBytes | common-core/src/main/java/com/bit/examsystem/common/network/MessageEncoder.java:33 | The buffer grows by exactly the given bytes. |
| Framing.Encoded | common-core/src/main/java/com/bit/examsystem/common/network/MessageEncoder.java:24-33 | What one message adds to the wire is the frame of its JSON payload. |
| Framing.Encode | common-core/src/main/java/com/bit/examsystem/common/network/MessageEncoder.java:18-34 | A null message leaves the output untouched; any other message appends exactly its frame. The encoder sets no size limit. |
| Framing.NextFrame | common-core/src/main/java/com/bit/examsystem/common/network/ProtocolInitializer.java:29 | The frame decoder fails iff a complete header announces more than 65531 bytes. It waits iff the header or the payload is incomplete. Otherwise it cuts a payload whose length is the header value, and the buffer is header, payload and rest. |
| Framing.NextFrameOfFrame | common-core/src/main/java/com/bit/examsystem/common/network/ProtocolInitializer.java:29 | A frame the encoder wrote with a payload of at most 65531 bytes is cut back exactly, whatever follows it. |
| Framing.NextFrameOfLongFrame | common-core/src/main/java/com/bit/examsystem/common/network/ProtocolInitializer.java:29 | A longer payload makes the frame decoder fail; the encoder never prevents this. |
| Framing.Deframe | common-core/src/main/java/com/bit/examsystem/common/network/ProtocolInitializer.java:23-29 | Every payload delivered is at most 65531 bytes. When no frame is too long, what stays buffered is an incomplete frame. |
| Framing.DeframeWire | common-core/src/main/java/com/bit/examsystem/common/network/ProtocolInitializer.java:23-29 | Back-to-back frames split into the original payloads, in order, and an incomplete tail stays buffered. |
| Framing.WireOfDeframe | common-core/src/main/java/com/bit/examsystem/common/network/ProtocolInitializer.java:23-29 | Conversely, any accepted buffer is exactly the frames of its payloads followed by the buffered tail. |
| Framing.Be32OfValue | common-core/src/main/java/com/bit/examsystem/common/network/ProtocolInitializer.java:29 | Every four-byte header is the encoding of its own value. |
| Framing.DecodeFrame | common-core/src/main/java/com/bit/examsystem/common/network/MessageDecoder.java:21-42 | A blank payload or unreadable JSON yields no message. A message that is produced is the envelope read from the payload's JSON. |
| Framing.DecodeFrameOfPayload | common-core/src/main/java/com/bit/examsystem/common/network/MessageDecoder.java:23-36 | The decoder reads back every envelope the encoder wrote. |
| Framing.DecodeAll | common-core/src/main/java/com/bit/examsystem/common/network/MessageDecoder.java:33-36 | At most one message comes out of each frame. |
| Framing.Receive | common-core/src/main/java/com/bit/examsystem/common/network/ProtocolInitializer.java:23-37 | No more messages than frames arrive. The connection fails iff a frame is too long. |
| Framing.Payloads | common-core/src/main/java/com/bit/examsystem/common/network/MessageEncoder.java:24-27 | One payload per message, in order. |
| Framing.StreamIsWire | common-core/src/main/java/com/bit/examsystem/common/network/MessageEncoder.java:18-34 | Encoding messages one after another writes the back-to-back frames of their payloads. |
| Framing.DecodeAllPayloads | common-core/src/main/java/com/bit/examsystem/common/network/MessageDecoder.java:21-42 | Every payload the encoder wrote decodes back to its message, in order. |
| Framing.ReceiveStream | common-core/src/main/java/com/bit/examsystem/common/network/ProtocolInitializer.java:23-37 | End to end: the receiving pipeline delivers exactly the messages sent, in order, when each payload fits a frame. |
| Framing.DroppedFrameKeepsConnection | common-core/src/main/java/com/bit/examsystem/common/network/MessageDecoder.java:25-41 | A blank or unreadable frame is dropped without a message and without closing the connection. |
| Framing.LoginRequestRoundTrip | common-core/src/test/java/com/bit/examsystem/common/network/CodecTest.java:37-80 | A login request sent through encoder and decoder arrives as one LOGIN_REQUEST whose body converts back to the same student. |
| Json.Field | common-core/src/main/java/com/bit/examsystem/common/util/JsonUtil.java:70-79 | An absent property reads as JSON null; a present one reads as its value. |
| Json.StrFromJson | common-core/src/main/java/com/bit/examsystem/common/model/Student.java:7-12 | A String property takes a string or null as itself, and a number or boolean as its literal text (the number's text parses back to it). Only an array or an object fails. |
| Json.BoolFromJson | common-core/src/main/java/com/bit/examsystem/common/model/Student.java:7-12 | A primitive boolean takes a boolean as itself, null as false and a number as "not zero". A trimmed string reads true exactly for true/True/TRUE, and false exactly for false/False/FALSE, "null", or a text that is empty or blank. Anything else fails. |
| Json.BoolTextIsBool | common-core/src/main/java/com/bit/examsystem/common/model/Student.java:11 | A boolean coerced into a String reads back into a boolean as itself. |
| Json.IntFromJson | common-core/src/main/java/com/bit/examsystem/common/message/Message.java:9 | A Long property takes a number as itself. Null, an empty or blank string and a string trimming to "null" read as null. Any other string reads as Long.parseLong of its trim, failing exactly when that throws. A boolean, array or object fails. |
| Json.BlankStringIsNull | common-core/src/main/java/com/bit/examsystem/common/message/Message.java:9 | A string of only blanks reads as null: false for a primitive boolean, null for a `Long`. |
| Json.NumericStringIsNumber | common-core/src/main/java/com/bit/examsystem/common/message/Message.java:9 | A 64-bit number written as a decimal string reads as the number itself. |
| Text.ParseLongOfIntToString | common-core/src/main/java/com/bit/examsystem/common/message/Message.java:9 | Long.parseLong undoes the decimal rendering of every 64-bit value. |
| Json.StudentFromJson | teacher-app/src/main/java/com/bit/examsystem/teacher/network/TeacherBusinessHandler.java:91 | A null body converts to a null student; a body that is not an object fails to convert. |
| Json.StudentRoundTrip | common-core/src/test/java/com/bit/examsystem/common/network/CodecTest.java:76-80 | Converting a serialised student gives the same student. |
| Json.StudentIgnoresUnknown | common-core/src/main/java/com/bit/examsystem/common/util/JsonUtil.java:30 | Unknown properties do not change the student read. |
| Json.LoginResponseFromJson | student-app/src/main/java/com/bit/examsystem/student/network/StudentBusinessHandler.java:80 | A null body converts to a null response; a body that is not an object fails to convert. |
| Json.LoginResponseRoundTrip | common-core/src/main/java/com/bit/examsystem/common/message/LoginResponse.java:12-15 | Converting a serialised login response gives the same response. |
| Json.AnswerFromJson | common-core/src/main/java/com/bit/examsystem/common/model/StudentAnswer.java:7-10 | An answer that is not a JSON object fails to convert. |
| Json.AnswerRoundTrip | common-core/src/main/java/com/bit/examsystem/common/model/StudentAnswer.java:7-10 | Converting a serialised answer gives the same answer. |
| Json.AnswersToJson | teacher-app/src/main/java/com/bit/examsystem/teacher/network/TeacherBusinessHandler.java:134 | A list of answers is written as an array holding one object per answer, in order. |
| Json.AnswerItemsFromJson | teacher-app/src/main/java/com/bit/examsystem/teacher/network/TeacherBusinessHandler.java:134 | An array converts iff every item converts, giving one answer per item, in order. |
| Json.AnswersFromJson | teacher-app/src/main/java/com/bit/examsystem/teacher/network/TeacherBusinessHandler.java:134 | A null body converts to a null list; a body that is not an array fails to convert. |
| Json.AnswersRoundTrip | teacher-app/src/main/java/com/bit/examsystem/teacher/network/TeacherBusinessHandler.java:133-137 | Converting a serialised answer list gives the same list. |
| Json.QuestionDTOToJson | common-core/src/main/java/com/bit/examsystem/common/dto/QuestionDTO.java:9-16 | A published question is written with exactly the six properties of QuestionDTO. |
| Json.ExamPaperDTOToJson | common-core/src/main/java/com/bit/examsystem/common/dto/ExamPaperDTO.java:8-14 | A published paper writes its questions as an array of the questions' own objects, in order. |
| Json.PublishedPaperHasNoAnswerKey | common-core/src/main/java/com/bit/examsystem/common/dto/QuestionDTO.java:9-16 | No question of a published paper carries a correctAnswer property. |
| Json.NewMessage | common-core/src/main/java/com/bit/examsystem/common/message/Message.java:14-18 | A new message carries its type, the current time and its body. |
| Json.KindFromJson | common-core/src/main/java/com/bit/examsystem/common/message/MessageType.java:3-21 | The message type reads from null, from an ordinal 0 to 7, or from a string that trims to a constant name or to a digit-led int 0 to 7 (that ordinal's constant). Every other value fails. |
| Json.OrdinalStringIsOrdinal | common-core/src/main/java/com/bit/examsystem/common/message/MessageType.java:3-21 | An ordinal written as a string names the same constant as the bare ordinal. |
| Json.EnvelopeToJson | common-core/src/main/java/com/bit/examsystem/common/message/Message.java:6-9 | A message is written as an object with exactly the properties type, timestamp and body. |
| Json.EnvelopeFromJson | common-core/src/main/java/com/bit/examsystem/common/network/MessageDecoder.java:33 | Only an object reads as a message, and the message's body is the object's body property. |
| Json.EnvelopeRoundTrip | common-core/src/test/java/com/bit/examsystem/common/network/CodecTest.java:57-65 | Reading a written message gives the same message. |
| Json.EnvelopeIgnoresUnknown | common-core/src/main/java/com/bit/examsystem/common/util/JsonUtil.java:30 | Unknown properties do not change the message read. |
| Model.KindOrdinal | common-core/src/main/java/com/bit/examsystem/common/message/MessageType.java:3-21 | There are eight message types, numbered 0 to 7. |
| Model.KindOfName | common-core/src/main/java/com/bit/examsystem/common/message/MessageType.java:3-21 | A name reads as the type of that name, and as no type when no constant has it. |
| Model.KindOfOrdinal | common-core/src/main/java/com/bit/examsystem/common/message/MessageType.java:3-21 | An ordinal reads as a type iff it is 0 to 7, and then as the type with that ordinal. |
| Registry.Registered | teacher-app/src/main/java/com/bit/examsystem/teacher/network/ClientConnectionManager.java:39-43 | A registered student keeps id and name, takes the remote address as IP, and is online. |
| Registry.Values | teacher-app/src/main/java/com/bit/examsystem/teacher/network/ClientConnectionManager.java:85-87 | The online students are the registered entries, one per channel: each student occurs exactly as often as there are channels holding it. |
| Registry.ClientConnectionManager.constructor | teacher-app/src/main/java/com/bit/examsystem/teacher/network/ClientConnectionManager.java:20 | The registry starts empty. |
| Registry.ClientConnectionManager.AddStudent | teacher-app/src/main/java/com/bit/examsystem/teacher/network/ClientConnectionManager.java:39-46 | The channel now maps to the registered student. Every other channel's entry stays as it was. |
| Registry.ClientConnectionManager.RemoveStudent | teacher-app/src/main/java/com/bit/examsystem/teacher/network/ClientConnectionManager.java:53-60 | The channel's entry is removed. The student it held is returned, or none if the channel was unknown. |
| Registry.ClientConnectionManager.IsStudentIdOnline | teacher-app/src/main/java/com/bit/examsystem/teacher/network/ClientConnectionManager.java:67-79 | True iff the id is non-empty and some registered student has it. |
| Registry.ClientConnectionManager.OnlineStudents | teacher-app/src/main/java/com/bit/examsystem/teacher/network/ClientConnectionManager.java:85-87 | One student per registered channel. |
| Registry.ClientConnectionManager.GetStudent | teacher-app/src/main/java/com/bit/examsystem/teacher/network/ClientConnectionManager.java:94-96 | The channel's student, or none iff the channel is not registered. |
| Registry.RemoveIdempotent | teacher-app/src/main/java/com/bit/examsystem/teacher/network/ClientConnectionManager.java:53-60 | Removing a channel twice is the same as removing it once, and the channel is then gone. |
| Registry.AddMakesOnline | teacher-app/src/main/java/com/bit/examsystem/teacher/network/ClientConnectionManager.java:39-43 | After registering, a student with a non-empty id is online, and no other channel's entry changed. |
| Registry.EmptyIdNeverOnline | teacher-app/src/main/java/com/bit/examsystem/teacher/network/ClientConnectionManager.java:67-70 | An empty or missing id is never reported online. |
| TeacherHandler.Admission | teacher-app/src/main/java/com/bit/examsystem/teacher/network/TeacherBusinessHandler.java:89-122 | A login is rejected as a bad body iff the body does not convert, and as invalid iff the student, id or name is missing. It is a duplicate only when the id is already online. It is admitted only with the student from the body. |
| TeacherHandler.LoginActions | teacher-app/src/main/java/com/bit/examsystem/teacher/network/TeacherBusinessHandler.java:94-121 | Admission sends one welcome response. Every rejection sends one failure response and then closes the channel. |
| TeacherHandler.AdmissionKeepsUniqueIds | teacher-app/src/main/java/com/bit/examsystem/teacher/network/TeacherBusinessHandler.java:101-114 | Handling a login never puts two online students with the same non-empty id in the registry. |
| TeacherHandler.DuplicateIsRejected | teacher-app/src/main/java/com/bit/examsystem/teacher/network/TeacherBusinessHandler.java:101-108 | A second login with an online student's id is rejected as a duplicate. |
| TeacherHandler.EmptyIdIsAlwaysAdmitted | teacher-app/src/main/java/com/bit/examsystem/teacher/network/TeacherBusinessHandler.java:94-111 | A login with the empty id and a name is admitted, however many such students are online. |
| TeacherHandler.MissingIdIsInvalid | teacher-app/src/main/java/com/bit/examsystem/teacher/network/TeacherBusinessHandler.java:94-99 | A login without id or without name is invalid. |
| TeacherHandler.Route | teacher-app/src/main/java/com/bit/examsystem/teacher/network/TeacherBusinessHandler.java:124-143 | Answers from an unregistered channel are ignored. Otherwise they are filed under the channel's student id, with the converted list when the body converts. |
| TeacherHandler.TeacherBusinessHandler.constructor | teacher-app/src/main/java/com/bit/examsystem/teacher/network/TeacherBusinessHandler.java:26-34 | The handler uses the given registry and submission service, and has sent nothing. |
| TeacherHandler.TeacherBusinessHandler.HandleLoginRequest | teacher-app/src/main/java/com/bit/examsystem/teacher/network/TeacherBusinessHandler.java:89-122 | The registry is updated as the verdict says, and the verdict's responses are sent. |
| TeacherHandler.TeacherBusinessHandler.HandleAnswerSubmit | teacher-app/src/main/java/com/bit/examsystem/teacher/network/TeacherBusinessHandler.java:124-143 | A routed submission is saved, recorded and notified as processSubmission does; an unrouted one changes nothing. |
| TeacherHandler.TeacherBusinessHandler.ChannelRead | teacher-app/src/main/java/com/bit/examsystem/teacher/network/TeacherBusinessHandler.java:48-69 | A message without a type throws in the switch, so the channel is deregistered and closed (exceptionCaught, lines 146-151). LOGIN_REQ updates the registry and replies per the Admission verdict. ANSWER_SUBMIT saves, records and notifies as processSubmission does for the routed student, or changes nothing when unrouted. Every other type changes nothing. |
| TeacherHandler.TeacherBusinessHandler.ChannelInactive | teacher-app/src/main/java/com/bit/examsystem/teacher/network/TeacherBusinessHandler.java:42-46 | A closed channel's student goes offline. |
| TeacherHandler.TeacherBusinessHandler.ExceptionCaught | teacher-app/src/main/java/com/bit/examsystem/teacher/network/TeacherBusinessHandler.java:145-152 | On an error the channel's student goes offline and the channel is closed. |
| TeacherHandler.TeacherBusinessHandler.UserEventTriggered | teacher-app/src/main/java/com/bit/examsystem/teacher/network/TeacherBusinessHandler.java:71-87 | A reader-idle event closes the channel; other events do nothing. |
| TeacherHandler.RemovalKeepsUniqueIds | teacher-app/src/main/java/com/bit/examsystem/teacher/network/TeacherBusinessHandler.java:42-46 | Removing a channel keeps online ids unique. |
| Submission.RemoveFirst | teacher-app/src/main/java/com/bit/examsystem/teacher/service/SubmissionServiceImpl.java:84-86 | Removing a listener drops one occurrence of it and keeps the others; an absent listener changes nothing. |
| Submission.RemoveFirstOfUnique | teacher-app/src/main/java/com/bit/examsystem/teacher/service/SubmissionServiceImpl.java:78-86 | In a list without duplicates, the removed listener is gone and the list stays without duplicates. |
| Submission.CountAfterPut | teacher-app/src/main/java/com/bit/examsystem/teacher/service/SubmissionServiceImpl.java:52-68 | A resubmission keeps the count. A first submission raises it by one. |
| Submission.SubmissionService.constructor | teacher-app/src/main/java/com/bit/examsystem/teacher/service/SubmissionServiceImpl.java:16-30 | No submissions, no active exam, no listeners. |
| Submission.SubmissionService.ProcessSubmission | teacher-app/src/main/java/com/bit/examsystem/teacher/service/SubmissionServiceImpl.java:32-58 | Without an active exam, an id or answers, nothing changes. Otherwise the answers are saved, they replace the student's earlier ones, and the listeners are told. |
| Submission.SubmissionService.SetActiveExam | teacher-app/src/main/java/com/bit/examsystem/teacher/service/SubmissionServiceImpl.java:60-63 | Only the active exam changes. |
| Submission.SubmissionService.SubmissionCount | teacher-app/src/main/java/com/bit/examsystem/teacher/service/SubmissionServiceImpl.java:65-68 | The count is the number of students who have submitted. |
| Submission.SubmissionService.ClearSubmissions | teacher-app/src/main/java/com/bit/examsystem/teacher/service/SubmissionServiceImpl.java:70-76 | The submissions are emptied and every listener is told once. |
| Submission.SubmissionService.AddListener | teacher-app/src/main/java/com/bit/examsystem/teacher/service/SubmissionServiceImpl.java:78-82 | A listener is added once; adding it again changes nothing. |
| Submission.SubmissionService.RemoveListener | teacher-app/src/main/java/com/bit/examsystem/teacher/service/SubmissionServiceImpl.java:84-86 | The listener is no longer registered, and the other listeners keep their order. |
| Submission.SubmissionService.NotifyListeners | teacher-app/src/main/java/com/bit/examsystem/teacher/service/SubmissionServiceImpl.java:88-92 | Every listener is told once, in registration order. |
| ExamService.ConvertQuestion | teacher-app/src/main/java/com/bit/examsystem/teacher/service/ExamServiceImpl.java:71-79 | A published question keeps the question's id, title, type, options and score, and has no exam id. |
| ExamService.ConvertToDTO | teacher-app/src/main/java/com/bit/examsystem/teacher/service/ExamServiceImpl.java:63-84 | A published paper keeps the paper's fields, starts now, and has one published question per question, in order. |
| ExamService.WithoutAnswerKeys | teacher-app/src/main/java/com/bit/examsystem/teacher/service/ExamServiceImpl.java:72-78 | The same paper with every answer key removed. |
| ExamService.PublishedIgnoresAnswerKeys | teacher-app/src/main/java/com/bit/examsystem/teacher/service/ExamServiceImpl.java:72-78 | The published paper does not depend on the answer keys. |
| ExamService.ExamServiceImpl.constructor | teacher-app/src/main/java/com/bit/examsystem/teacher/service/ExamServiceImpl.java:20-23 | The server is not running and nothing has been requested or broadcast. |
| ExamService.ExamServiceImpl.StartServer | teacher-app/src/main/java/com/bit/examsystem/teacher/service/ExamServiceImpl.java:25-31 | A start is requested only while the server is not running. |
| ExamService.ExamServiceImpl.BindCompleted | teacher-app/src/main/java/com/bit/examsystem/teacher/network/TeacherServer.java:40-71 | Once the port is bound the server runs. |
| ExamService.ExamServiceImpl.StopServer | teacher-app/src/main/java/com/bit/examsystem/teacher/service/ExamServiceImpl.java:33-38 | The server no longer runs. |
| ExamService.ExamServiceImpl.StartExam | teacher-app/src/main/java/com/bit/examsystem/teacher/service/ExamServiceImpl.java:40-57 | A running server broadcasts an EXAM_START message carrying the published paper. A stopped server broadcasts nothing. |
| MainControl.AfterEnd | teacher-app/src/main/java/com/bit/examsystem/teacher/controller/MainController.java:385-397 | Ending leaves no exam in progress, and changes no other state. |
| MainControl.EndIdempotent | teacher-app/src/main/java/com/bit/examsystem/teacher/controller/MainController.java:385-397 | Ending twice is ending once. |
| MainControl.StartCheck | teacher-app/src/main/java/com/bit/examsystem/teacher/controller/MainController.java:244-269 | An exam starts iff one is selected, it loads with at least one question, and no exam is in progress. Each refusal names its reason. |
| MainControl.CaptionsDistinct | teacher-app/src/main/java/com/bit/examsystem/teacher/controller/MainController.java:157-176 | The three exam states show three different status captions. |
| MainControl.MainController.constructor | teacher-app/src/main/java/com/bit/examsystem/teacher/controller/MainController.java:52-60 | The screen opens waiting, with no active exam, no timer and no calls. |
| MainControl.MainController.View | teacher-app/src/main/java/com/bit/examsystem/teacher/controller/MainController.java:151-178 | The dashboard shows the online and submission counts and the state's caption. It shows the exam title, marked when ended, and the timer only while waiting. Grading is enabled iff the exam is finished. |
| MainControl.MainController.StopLocalExamTimer | teacher-app/src/main/java/com/bit/examsystem/teacher/controller/MainController.java:375-380 | The timer is disarmed, and cancelled if it was armed. |
| MainControl.MainController.StartLocalExamTimer | teacher-app/src/main/java/com/bit/examsystem/teacher/controller/MainController.java:346-373 | The timer ends the given minutes after now, replacing any earlier timer. |
| MainControl.MainController.EndExam | teacher-app/src/main/java/com/bit/examsystem/teacher/controller/MainController.java:385-397 | The timer stops and no exam remains in progress. |
| MainControl.MainController.HandleStartExam | teacher-app/src/main/java/com/bit/examsystem/teacher/controller/MainController.java:243-293 | A refused start changes nothing but the warning. An accepted one sets the exam active and in progress, clears the submissions, broadcasts the paper and arms the timer. |
| MainControl.MainController.Tick | teacher-app/src/main/java/com/bit/examsystem/teacher/controller/MainController.java:353-372 | With the timer armed, each tick shows the remainder. When time is up the exam ends. |
| MainControl.MainController.HandleStopServer | teacher-app/src/main/java/com/bit/examsystem/teacher/controller/MainController.java:198-205 | Stopping the server also ends any exam in progress and stops the timer. |
| MainControl.MainController.HandleGradeExam | teacher-app/src/main/java/com/bit/examsystem/teacher/controller/MainController.java:295-324 | Grading runs only for a finished active exam that loads, and it shows the grading summary. An ungradable answer shows nothing. Grading uses the corrected, all-or-nothing Grading.GradeExam (see Findings). The database keeps every update when a summary is shown, and none otherwise. |
| Countdown.EndTime | teacher-app/src/main/java/com/bit/examsystem/teacher/controller/MainController.java:350 | The end time is the given minutes after now, in milliseconds. |
| Countdown.Hms | teacher-app/src/main/java/com/bit/examsystem/teacher/controller/MainController.java:361-364 | Below 100 hours the remainder is shown as HH:MM:SS. |
| Countdown.HmsReadsBack | teacher-app/src/main/java/com/bit/examsystem/teacher/controller/MainController.java:361-364 | The shown hours, minutes and seconds read back as the remainder truncated to whole seconds. |
| Countdown.Display | teacher-app/src/main/java/com/bit/examsystem/teacher/controller/MainController.java:360-368 | A remainder of zero or less shows 00:00:00. |
| Grading.CalculateScore | teacher-app/src/main/java/com/bit/examsystem/teacher/service/GradingServiceImpl.java:80-109 | A correct answer earns the question's score and any other answer earns 0. |
| Grading.MultiChoiceOrderFree | teacher-app/src/main/java/com/bit/examsystem/teacher/service/GradingServiceImpl.java:97-105 | A multiple-choice answer is graded the same whatever order its letters are in. |
| Grading.ScoreIgnoresPadding | teacher-app/src/main/java/com/bit/examsystem/teacher/service/GradingServiceImpl.java:84-90 | Leading and trailing blanks around an answer do not change its score. |
| Grading.QuestionMap | teacher-app/src/main/java/com/bit/examsystem/teacher/service/GradingServiceImpl.java:27-28 | The map holds exactly the paper's question ids, each mapped to a question with that id. With unique ids, each question is the one mapped to its id. |
| Grading.AnswerUpdates | teacher-app/src/main/java/com/bit/examsystem/teacher/service/GradingServiceImpl.java:50-60 | One student's score updates carry that exam and that student, at most one per answer. |
| Grading.AnswerUpdatesCount | teacher-app/src/main/java/com/bit/examsystem/teacher/service/GradingServiceImpl.java:50-59 | A student gets exactly one score update per answer to a known question. |
| Grading.GradeExamAsWritten | teacher-app/src/main/java/com/bit/examsystem/teacher/service/GradingServiceImpl.java:24-75 | Duplicate question ids fail before any write. No submissions means nothing to grade. An ungradable answer fails the batch, with the updates issued before it (IssuedBeforeThrow) left committed by the finally block. A failed commit rolls back. Otherwise every update is issued and kept, and the summary counts answers and students. |
| Grading.GradeExam | teacher-app/src/main/java/com/bit/examsystem/teacher/service/GradingServiceImpl.java:40-72 | The corrected transaction: the same updates are issued, but the database keeps all of them on success and none on any failure. |
| Grading.UngradableAnswerCommitsPrefix | teacher-app/src/main/java/com/bit/examsystem/teacher/service/GradingServiceImpl.java:55-69 | With a second question lacking a score, the batch fails after the first answer's score has been issued, and that score is what the as-written code commits. |
| Grading.GradeStudent | teacher-app/src/main/java/com/bit/examsystem/teacher/service/GradingServiceImpl.java:50-60 | A student's answers grade iff each known answer scores, and then give that student's updates. Otherwise the updates are those of the answers before the first one that throws. |
| Grading.UniqueIds | teacher-app/src/main/java/com/bit/examsystem/teacher/service/GradingServiceImpl.java:27-28 | True iff no two questions share an id, which is when the id map builds. |
| Grading.UpdatesCount | teacher-app/src/main/java/com/bit/examsystem/teacher/service/GradingServiceImpl.java:46-62 | The batch holds one update per answer to a known question, over all students. |
| Sorting.Sort | teacher-app/src/main/java/com/bit/examsystem/teacher/service/GradingServiceImpl.java:100-103 | The sorted letters are a permutation of the input, and ordered when the order is total. |
| Sorting.SortEqualIffPermutation | teacher-app/src/main/java/com/bit/examsystem/teacher/service/GradingServiceImpl.java:100-105 | Two inputs sort to the same result iff they are permutations of each other. |
| Sorting.CharLeIsTotal | teacher-app/src/main/java/com/bit/examsystem/teacher/service/GradingServiceImpl.java:102-103 | Character order is total. |
| Sorting.StrLeIsTotal | student-app/src/main/java/com/bit/examsystem/student/controller/ExamController.java:134 | String order is total. |
| Text.Trim | student-app/src/main/java/com/bit/examsystem/student/controller/LoginController.java:37-40 | The trimmed text starts and ends with characters above space, and is no longer than the input. |
| Text.TrimStartDrops | student-app/src/main/java/com/bit/examsystem/student/controller/LoginController.java:37-40 | Trimming the front drops only a leading run of characters at or below space. |
| Text.TrimEndTakes | student-app/src/main/java/com/bit/examsystem/student/controller/LoginController.java:37-40 | Trimming the end drops only a trailing run of characters at or below space. |
| Text.BlankIffAllTrimmable | teacher-app/src/main/java/com/bit/examsystem/teacher/controller/QuestionEditorController.java:93-96 | A text is blank iff every character is at most space. |
| Text.ParseInt | student-app/src/main/java/com/bit/examsystem/student/controller/LoginController.java:48 | A parsed value is in the int range, and the text it came from is non-empty. |
| Text.ParseIntNoBlank | student-app/src/main/java/com/bit/examsystem/student/controller/LoginController.java:48 | Text that parses holds no character at or below space. |
| Text.ParseIntOfIntToString | teacher-app/src/main/java/com/bit/examsystem/teacher/controller/QuestionEditorController.java:43 | Every int written in decimal parses back to itself. |
| Text.ParseIntRejectsPadding | teacher-app/src/main/java/com/bit/examsystem/teacher/controller/ExamManagementController.java:176 | A number with a leading or trailing blank does not parse. |
| Text.IntToString | teacher-app/src/main/java/com/bit/examsystem/teacher/service/ResultService.java:59-62 | An int is written as its decimal digits, with a minus sign when negative. |
| Text.IntToStringHasNo | teacher-app/src/main/java/com/bit/examsystem/teacher/service/ResultService.java:59-62 | A written int holds no character other than digits and the minus sign. |
| Text.Pad2Digits | teacher-app/src/main/java/com/bit/examsystem/teacher/controller/MainController.java:364 | `%02d`: at least two digits, and exactly two below 100, with the value unchanged. |
| Text.IndexOf | student-app/src/main/java/com/bit/examsystem/student/controller/ExamController.java:163 | The first position of the character, or none iff it does not occur. |
| Text.SplitOn | teacher-app/src/main/java/com/bit/examsystem/teacher/controller/QuestionEditorController.java:69 | Splitting gives at least one part, and no part holds the separator. |
| Text.JoinSplitOn | teacher-app/src/main/java/com/bit/examsystem/teacher/controller/QuestionEditorController.java:45 | Joining the parts of a split gives the text back. |
| Text.SplitOnJoin | teacher-app/src/main/java/com/bit/examsystem/teacher/controller/QuestionEditorController.java:69 | Splitting a join of separator-free parts gives the parts back. |
| Text.NonBlank | teacher-app/src/main/java/com/bit/examsystem/teacher/controller/QuestionEditorController.java:69-71 | Filtering keeps only non-blank lines. |
| Text.NonBlankKeepsFree | teacher-app/src/main/java/com/bit/examsystem/teacher/controller/QuestionEditorController.java:69-71 | Filtering adds no character to any line. |
| Text.NonBlankEmpty | teacher-app/src/main/java/com/bit/examsystem/teacher/controller/QuestionEditorController.java:69-71 | Nothing is left iff every line was blank. |
| Text.NonBlankKeepsNonBlank | teacher-app/src/main/java/com/bit/examsystem/teacher/controller/QuestionEditorController.java:69-71 | Lines that are all non-blank are kept unchanged. |
| ExamView.ParseOption | student-app/src/main/java/com/bit/examsystem/student/controller/ExamController.java:161-166 | Null stays null. A text without '.' is kept whole. Otherwise the result is the trimmed text before the first '.'. |
| ExamView.ParseOptionLetter | student-app/src/main/java/com/bit/examsystem/student/controller/ExamController.java:161-166 | A parsed letter never holds '.'. |
| ExamView.EffectiveOptions | student-app/src/main/java/com/bit/examsystem/student/controller/ExamController.java:86-97 | The options shown are the published ones. A judge question without options gets T and F. Any other question without options gets none. |
| ExamView.CreateAnswerNodeAsWritten | student-app/src/main/java/com/bit/examsystem/student/controller/ExamController.java:83-155 | As written, the control is null exactly for a multiple-choice question without options. |
| ExamView.CreateAnswerNode | student-app/src/main/java/com/bit/examsystem/student/controller/ExamController.java:83-155 | Corrected: that question gets its placeholder box, and every other question gets the control as written. |
| ExamView.JudgeDefaults | student-app/src/main/java/com/bit/examsystem/student/controller/ExamController.java:89-92 | A judge question published without options shows a T/F radio group. |
| ExamView.Page | student-app/src/main/java/com/bit/examsystem/student/controller/ExamController.java:58-81 | One row per question, in order, numbered from 1, with the question's control and id. |
| ExamView.BuildQuestionUIAsWritten | student-app/src/main/java/com/bit/examsystem/student/controller/ExamController.java:58-81 | As written, the page is built iff every control is non-null. Otherwise adding the first null control throws, and the exam view fails to load. The rows built before it belong to the discarded view. |
| ExamView.BuildQuestionUI | student-app/src/main/java/com/bit/examsystem/student/controller/ExamController.java:58-81 | Corrected: the whole page is built. |
| ExamView.EmptyMultiChoiceBreaksPage | student-app/src/main/java/com/bit/examsystem/student/controller/ExamController.java:121-141 | A multiple-choice question without options gets a null control as written, and the placeholder box when corrected. |
| ExamView.RadioAnswer | student-app/src/main/java/com/bit/examsystem/student/controller/ExamController.java:112-118 | A radio choice records the question id and the parsed letter of the chosen text. |
| ExamView.CheckedLetters | student-app/src/main/java/com/bit/examsystem/student/controller/ExamController.java:131-133 | The letters of the checked options: every checked option's letter is present, and every entry is the letter of some checked option. |
| ExamView.MultiAnswerOrderFree | student-app/src/main/java/com/bit/examsystem/student/controller/ExamController.java:131-135 | The recorded multiple-choice answer depends only on which letters are checked. |
| ExamView.NothingChecked | student-app/src/main/java/com/bit/examsystem/student/controller/ExamController.java:131-135 | With no box checked, the empty answer is recorded. |
| ExamView.FillAnswer | student-app/src/main/java/com/bit/examsystem/student/controller/ExamController.java:146-148 | A text area records the question id and its whole current text. |
| QuestionEditor.OptionsVisible | teacher-app/src/main/java/com/bit/examsystem/teacher/controller/QuestionEditorController.java:50-54 | The options field shows iff the type is single or multiple choice. |
| QuestionEditor.Validate | teacher-app/src/main/java/com/bit/examsystem/teacher/controller/QuestionEditorController.java:91-119 | Missing fields are reported first, then a bad score, then missing options for a choice. The form is valid iff none applies. |
| QuestionEditor.OptionLines | teacher-app/src/main/java/com/bit/examsystem/teacher/controller/QuestionEditorController.java:69-71 | The saved options are non-blank single lines. |
| QuestionEditor.Edited | teacher-app/src/main/java/com/bit/examsystem/teacher/controller/QuestionEditorController.java:62-75 | Saving keeps the question's id and takes the type from the form. |
| QuestionEditor.EditedWellFormed | teacher-app/src/main/java/com/bit/examsystem/teacher/controller/QuestionEditorController.java:62-75 | A valid form saves a well-formed question: title and answer trimmed and non-empty, an int score, and non-blank options present iff a choice. |
| QuestionEditor.Loaded | teacher-app/src/main/java/com/bit/examsystem/teacher/controller/QuestionEditorController.java:37-48 | Loading shows the question's type and title. A question without options leaves the options text as it was. |
| QuestionEditor.LoadSaveRoundTrip | teacher-app/src/main/java/com/bit/examsystem/teacher/controller/QuestionEditorController.java:37-75 | Loading a well-formed question and saving it unchanged validates and gives the same question back. |
| QuestionEditor.QuestionEditorController.constructor | teacher-app/src/main/java/com/bit/examsystem/teacher/controller/QuestionEditorController.java:22-31 | The dialog opens empty, unsaved and open. |
| QuestionEditor.QuestionEditorController.SelectType | teacher-app/src/main/java/com/bit/examsystem/teacher/controller/QuestionEditorController.java:29-30 | Choosing a different type sets the options visibility from that type. Choosing the same type leaves it. |
| QuestionEditor.QuestionEditorController.EditTexts | teacher-app/src/main/java/com/bit/examsystem/teacher/controller/QuestionEditorController.java:16-19 | Typing changes only the form texts. |
| QuestionEditor.QuestionEditorController.SetQuestion | teacher-app/src/main/java/com/bit/examsystem/teacher/controller/QuestionEditorController.java:37-48 | The dialog edits the given question, and the form shows it as loaded. |
| QuestionEditor.QuestionEditorController.IsInputValid | teacher-app/src/main/java/com/bit/examsystem/teacher/controller/QuestionEditorController.java:91-119 | True iff the form is valid. Otherwise exactly the first problem is shown. |
| QuestionEditor.QuestionEditorController.HandleSave | teacher-app/src/main/java/com/bit/examsystem/teacher/controller/QuestionEditorController.java:60-80 | An invalid form only shows its problem. A valid one writes the edited question, marks it saved and closes the dialog. |
| QuestionEditor.QuestionEditorController.HandleCancel | teacher-app/src/main/java/com/bit/examsystem/teacher/controller/QuestionEditorController.java:82-85 | Cancel closes the dialog and saves nothing. |
| ExamManagement.NewExam | teacher-app/src/main/java/com/bit/examsystem/teacher/controller/ExamManagementController.java:111-112 | A new exam has the fresh id and no questions. |
| ExamManagement.NewQuestion | teacher-app/src/main/java/com/bit/examsystem/teacher/controller/ExamManagementController.java:133-134 | A new question has the fresh id and nothing else set. |
| ExamManagement.CheckDetails | teacher-app/src/main/java/com/bit/examsystem/teacher/controller/ExamManagementController.java:162-172 | A blank title or duration is reported first, then a duration that does not parse once trimmed. The details are valid iff neither applies. |
| ExamManagement.SaveExam | teacher-app/src/main/java/com/bit/examsystem/teacher/controller/ExamManagementController.java:157-179 | Corrected: saving never throws, and builds an exam iff one is being edited and its details are valid. |
| ExamManagement.SaveExamMeaning | teacher-app/src/main/java/com/bit/examsystem/teacher/controller/ExamManagementController.java:157-179 | Corrected: the saved exam has the trimmed title, the parsed trimmed duration, the current questions and start time 0. |
| ExamManagement.SaveExamAsWritten | teacher-app/src/main/java/com/bit/examsystem/teacher/controller/ExamManagementController.java:157-179 | As written, saving throws iff valid details have a duration that parses only when trimmed, and the title is already set when it throws. Otherwise it is the corrected save. |
| ExamManagement.PaddedDurationThrows | teacher-app/src/main/java/com/bit/examsystem/teacher/controller/ExamManagementController.java:168-176 | A valid duration with a leading or trailing blank makes the save as written throw, while the corrected save succeeds. |
| ExamManagement.LeadingBlankDuration | teacher-app/src/main/java/com/bit/examsystem/teacher/controller/ExamManagementController.java:168-176 | The duration " 30" throws as written, and saves 30 minutes when corrected. |
| ExamManagement.LoadSaveRoundTrip | teacher-app/src/main/java/com/bit/examsystem/teacher/controller/ExamManagementController.java:97-101 | Saving the fields as loaded gives the exam back, both as written and corrected. |
| ExamManagement.RemoveSelectedRow | teacher-app/src/main/java/com/bit/examsystem/teacher/controller/ExamManagementController.java:150-154 | In a list without duplicates, removing the selected question removes exactly its row. |
| ExamManagement.ExamManagementController.constructor | teacher-app/src/main/java/com/bit/examsystem/teacher/controller/ExamManagementController.java:49-79 | The screen lists the stored exams, or none if the store fails; nothing is selected and the details are disabled. |
| ExamManagement.ExamManagementController.LoadExamList | teacher-app/src/main/java/com/bit/examsystem/teacher/controller/ExamManagementController.java:81-87 | The list shows the stored exams; a store failure keeps the old list. |
| ExamManagement.ExamManagementController.UpdateControlsState | teacher-app/src/main/java/com/bit/examsystem/teacher/controller/ExamManagementController.java:229-245 | The details are enabled iff an exam is being edited; delete is enabled iff an exam is selected. |
| ExamManagement.ExamManagementController.ClearDetails | teacher-app/src/main/java/com/bit/examsystem/teacher/controller/ExamManagementController.java:196-202 | The detail fields and questions are emptied and no exam is being edited. |
| ExamManagement.ExamManagementController.LoadExamDetails | teacher-app/src/main/java/com/bit/examsystem/teacher/controller/ExamManagementController.java:89-105 | A loaded exam fills title, duration and questions. A missing stored exam throws. No selection clears the details. |
| ExamManagement.ExamManagementController.SelectExam | teacher-app/src/main/java/com/bit/examsystem/teacher/controller/ExamManagementController.java:68-73 | Selecting an exam loads its details and enables the controls. |
| ExamManagement.ExamManagementController.HandleNewExam | teacher-app/src/main/java/com/bit/examsystem/teacher/controller/ExamManagementController.java:107-116 | A fresh empty exam is edited, with the selection and the details cleared. |
| ExamManagement.ExamManagementController.HandleDeleteExam | teacher-app/src/main/java/com/bit/examsystem/teacher/controller/ExamManagementController.java:118-129 | The selected exam is deleted and the list reloaded. Without a selection nothing happens. |
| ExamManagement.ExamManagementController.HandleAddQuestion | teacher-app/src/main/java/com/bit/examsystem/teacher/controller/ExamManagementController.java:131-138 | A saved dialog appends the new question. A cancelled one changes nothing. |
| ExamManagement.ExamManagementController.HandleEditQuestion | teacher-app/src/main/java/com/bit/examsystem/teacher/controller/ExamManagementController.java:140-147 | A saved dialog replaces the selected row's question. A cancelled one changes nothing. |
| ExamManagement.ExamManagementController.HandleDeleteQuestion | teacher-app/src/main/java/com/bit/examsystem/teacher/controller/ExamManagementController.java:149-154 | The selected question is removed. Without a selection nothing happens. |
| ExamManagement.ExamManagementController.HandleSaveExamAsWritten | teacher-app/src/main/java/com/bit/examsystem/teacher/controller/ExamManagementController.java:156-188 | As written: invalid details only warn, a padded duration throws after the title is set, and a valid save stores the exam. |
| ExamManagement.ExamManagementController.StoreExam | teacher-app/src/main/java/com/bit/examsystem/teacher/controller/ExamManagementController.java:181-187 | The exam is saved and the list reloaded. |
| ExamManagement.ExamManagementController.HandleSaveExam | teacher-app/src/main/java/com/bit/examsystem/teacher/controller/ExamManagementController.java:156-188 | Corrected: invalid details only warn, and valid details store the assembled exam. |
| Results.Display | teacher-app/src/main/java/com/bit/examsystem/teacher/service/ResultService.java:59-62 | A string prints as itself, and a null string as "null". |
| Results.ResultOf | teacher-app/src/main/java/com/bit/examsystem/teacher/service/ResultService.java:27-30 | A result carries the student's id and name as printed and the summed score. |
| Results.GetResultsForExam | teacher-app/src/main/java/com/bit/examsystem/teacher/service/ResultService.java:20-38 | One result per listed student, in order, each with that student's total. Any store failure fails the call. |
| Results.RowIsJoin | teacher-app/src/main/java/com/bit/examsystem/teacher/service/ResultService.java:59-62 | A row is id, name and score joined by commas. |
| Results.ExportCsv | teacher-app/src/main/java/com/bit/examsystem/teacher/service/ResultService.java:44-65 | The export is the byte-order mark, then the header line, then the data lines. |
| Results.Rows | teacher-app/src/main/java/com/bit/examsystem/teacher/service/ResultService.java:58-63 | One row per result, in order. |
| Results.ExportLines | teacher-app/src/main/java/com/bit/examsystem/teacher/service/ResultService.java:52-63 | After the mark, the export splits into the header, one line per result in order, and nothing after the last line break. |
| Results.RowCommas | teacher-app/src/main/java/com/bit/examsystem/teacher/service/ResultService.java:59-62 | Fields are not quoted: every comma in an id or name adds a column. |
| Results.RowReadsBack | teacher-app/src/main/java/com/bit/examsystem/teacher/service/ResultService.java:59-62 | Without commas in id and name, a row splits back into its three fields and the score parses back. |
| Login.DefaultIp | student-app/src/main/java/com/bit/examsystem/student/controller/LoginController.java:29-30 | The saved server address, or the loopback address if none was saved. |
| Login.CheckLogin | student-app/src/main/java/com/bit/examsystem/student/controller/LoginController.java:36-58 | Missing iff any trimmed field is empty. A bad port iff all fields are filled and the port does not parse. Otherwise ready, with the trimmed fields and the parsed port. |
| Login.PortRangeUnchecked | student-app/src/main/java/com/bit/examsystem/student/controller/LoginController.java:48 | Any int port is accepted, including 0, negative ports and ports above 65535. |
| Login.LoginController.constructor | student-app/src/main/java/com/bit/examsystem/student/controller/LoginController.java:26-33 | The screen opens with the last id, the default server address and the local address caption. |
| Login.LoginController.EditFields | student-app/src/main/java/com/bit/examsystem/student/controller/LoginController.java:37-40 | Typing changes only the four field texts. |
| Login.LoginController.HandleLogin | student-app/src/main/java/com/bit/examsystem/student/controller/LoginController.java:35-59 | A missing field or a bad port only sets the status. Otherwise the configuration is saved, then the session logs in with the trimmed values and the status says it is connecting. A port outside 0..65535 on a free client throws out of the handler and leaves the client connecting. |
| ReconnectControl.Pow2 | student-app/src/main/java/com/bit/examsystem/student/network/StudentClient.java:94 | Each delay is at least one second. |
| ReconnectControl.Backoff | student-app/src/main/java/com/bit/examsystem/student/network/StudentClient.java:93-96 | The n-th retry waits 2^n seconds. |
| ReconnectControl.BackoffTotal | student-app/src/main/java/com/bit/examsystem/student/network/StudentClient.java:93-100 | The first n delays add up to 2^n - 1 seconds. |
| ReconnectControl.FullBackoff | student-app/src/main/java/com/bit/examsystem/student/network/StudentClient.java:93-100 | The ten retries wait 1, 2, 4, ... 512 seconds, 1023 seconds in all. |
| ReconnectControl.StudentClient.constructor | student-app/src/main/java/com/bit/examsystem/student/network/StudentClient.java:23-44 | A new client is not connecting, not shut down, not connected and has no retries. |
| ReconnectControl.StudentClient.Connect | student-app/src/main/java/com/bit/examsystem/student/network/StudentClient.java:53-66 | A shut-down, connecting or connected client does nothing. Otherwise it records the address and is connecting. It makes one attempt for a valid port, and throws without an attempt for any other. |
| ReconnectControl.StudentClient.DoConnect | student-app/src/main/java/com/bit/examsystem/student/network/StudentClient.java:71-73 | The client is connecting. A port in 0..65535 gets one attempt to the recorded address. Any other port throws before an attempt or listener exists, so nothing clears the flag. |
| ReconnectControl.StudentClient.ConnectCompleted | student-app/src/main/java/com/bit/examsystem/student/network/StudentClient.java:74-84 | Success resets the retry count. Failure schedules the next retry, unless the client is shut down or out of retries. |
| ReconnectControl.StudentClient.ScheduleReconnect | student-app/src/main/java/com/bit/examsystem/student/network/StudentClient.java:90-101 | A retry with the next backoff delay is scheduled, unless the client is shut down, connecting or out of retries. |
| ReconnectControl.StudentClient.FireScheduled | student-app/src/main/java/com/bit/examsystem/student/network/StudentClient.java:96 | A due retry runs doConnect: one attempt, or the bad-port throw. After shutdown nothing fires. |
| ReconnectControl.StudentClient.ChannelClosed | student-app/src/main/java/com/bit/examsystem/student/network/StudentClient.java:58 | The channel is no longer active and nothing else changes. |
| ReconnectControl.StudentClient.Shutdown | student-app/src/main/java/com/bit/examsystem/student/network/StudentClient.java:106-122 | The client is shut down, its channel closed and every scheduled retry cancelled, so none fires afterwards. |
| ReconnectControl.StudentClient.DisableReconnection | student-app/src/main/java/com/bit/examsystem/student/network/StudentBusinessHandler.java:90 | Reconnection is disabled and nothing else changes. |
| ParticipantHandler.LoginFailedText | student-app/src/main/java/com/bit/examsystem/student/network/StudentBusinessHandler.java:98 | The failure text is the prefix followed by the server's message, or by "null". |
| ParticipantHandler.LoginOutcome | student-app/src/main/java/com/bit/examsystem/student/network/StudentBusinessHandler.java:79-102 | A response that reads shows the waiting room or the failure text. Anything else closes the channel. |
| ParticipantHandler.LoginVerdictDelivered | student-app/src/main/java/com/bit/examsystem/student/network/StudentBusinessHandler.java:79-101 | The teacher's success response shows the waiting room, and a failure response shows its message. |
| ParticipantHandler.StudentBusinessHandler.constructor | student-app/src/main/java/com/bit/examsystem/student/network/StudentBusinessHandler.java:23-25 | The handler uses the given client and session and has done nothing. |
| ParticipantHandler.StudentBusinessHandler.UserEventTriggered | student-app/src/main/java/com/bit/examsystem/student/network/StudentBusinessHandler.java:30-47 | A writer-idle event sends one heartbeat; other events do nothing. |
| ParticipantHandler.StudentBusinessHandler.ChannelActive | student-app/src/main/java/com/bit/examsystem/student/network/StudentBusinessHandler.java:49-63 | A logged-in session sends its LOGIN_REQUEST; without one the channel is closed. |
| ParticipantHandler.StudentBusinessHandler.ChannelRead | student-app/src/main/java/com/bit/examsystem/student/network/StudentBusinessHandler.java:65-77 | A message without a type closes the channel. LOGIN_RESPONSE is handled. Other types are ignored. |
| ParticipantHandler.StudentBusinessHandler.HandleLoginResponse | student-app/src/main/java/com/bit/examsystem/student/network/StudentBusinessHandler.java:79-102 | The login outcome is carried out, and a refused login disables reconnection. |
| ParticipantHandler.StudentBusinessHandler.ChannelInactive | student-app/src/main/java/com/bit/examsystem/student/network/StudentBusinessHandler.java:104-109 | A lost connection schedules a reconnect as the client's rules allow. |
| ParticipantHandler.StudentBusinessHandler.ExceptionCaught | student-app/src/main/java/com/bit/examsystem/student/network/StudentBusinessHandler.java:111-116 | An error closes the channel. |
| ParticipantService.LocalIp | student-app/src/main/java/com/bit/examsystem/student/service/StudentServiceImpl.java:51-58 | The local address, or the loopback address when the lookup fails. |
| ParticipantService.TickOutputs | student-app/src/main/java/com/bit/examsystem/student/service/StudentServiceImpl.java:78-90 | Every tick hands its remainder to the display callback. The finish callback follows exactly when no time is left. |
| ParticipantService.HmsNotTimeUp | student-app/src/main/java/com/bit/examsystem/student/service/StudentServiceImpl.java:80-88 | With one second or more left, 00:00:00 is never shown. Under one second it is shown, although the exam goes on until the next tick. |
| ParticipantService.StudentService.constructor | student-app/src/main/java/com/bit/examsystem/student/service/StudentServiceImpl.java:22-25 | The session starts with no student, no exam and no timer. |
| ParticipantService.StudentService.Login | student-app/src/main/java/com/bit/examsystem/student/service/StudentServiceImpl.java:30-44 | The session holds the student with the local address, online. A free client then connects to the server, throwing for a port outside 0..65535. |
| ParticipantService.StudentService.SetCurrentExam | student-app/src/main/java/com/bit/examsystem/student/service/StudentServiceImpl.java:60-65 | The exam is stored and ends its duration after now. |
| ParticipantService.StudentService.StartExamTimer | student-app/src/main/java/com/bit/examsystem/student/service/StudentServiceImpl.java:72-92 | The timer runs. |
| ParticipantService.StudentService.Tick | student-app/src/main/java/com/bit/examsystem/student/service/StudentServiceImpl.java:76-91 | A running timer shows the tick's outputs, and keeps running iff time is left. |
| ParticipantService.StudentService.StopExamTimer | student-app/src/main/java/com/bit/examsystem/student/service/StudentServiceImpl.java:94-100 | The timer stops and nothing else changes. |

## Left out

- Netty plumbing: event loops, bootstrap options, the channel group that `channelActive` joins, pipeline assembly and `syncUninterruptibly`. These are infrastructure. The model keeps only the frame codec and the handlers' decisions.
- JavaFX: scene graph, dialogs, alerts, window closing (`ExamManagementController.handleClose`) and `Platform.runLater`. Only the field texts, visibility and enabled flags, the controls' kinds and the recorded answers are modelled. A `setText(null)` is treated as the empty text. In JavaFX the text stays null. A new question has a null title and answer (`ExamManagementController.java:132-133`). Saving it after choosing only a type therefore makes `isInputValid` throw a NullPointerException at `QuestionEditorController.java:94-95`, where the model shows the missing-field warning.
- The selection side effects of `ObservableList.setAll`, and list-cell rendering, are not modelled.
- The initial visibility of the question dialog's options field comes from the FXML. It is a constructor parameter.
- JDBC and the DAO classes are left out. Their results and failures are parameters, and saves and deletions are logged. `REPLACE INTO` semantics and `ResultService.getDetailedResults`, a plain DAO pass-through, are not modelled.
- The Jackson text codec is an abstract write/read pair. The model assumes read(write(j)) == j and that written text is never blank. Jackson's escape rules are not modelled. JSON numbers are integers here, so fractions are not modelled.
- The scalar readers (`Json.StrFromJson`, `Json.BoolFromJson`, `Json.IntFromJson`, `Json.KindFromJson`) follow the coercion defaults of Jackson 2.13 and later, where a blank string reads as null for a boolean or a `Long`. The shown code pins no Jackson version. Release 2.12 refuses a blank string there, and older releases differ in further corner cases.
- Json.IntFromJson: a JSON number outside the 64-bit range is accepted as it is. Jackson refuses it for a `Long`.
- Json.StrFromJson: a number's text is its shortest decimal. A literal `-0` becomes "0", not "-0".
- `JsonUtil.convert`: the shown `JsonUtil` does not define `convert`. The model specifies it as Jackson's `convertValue` on the JSON tree.
- `ExamController`'s `studentService.updateAnswer` and `StudentBusinessHandler`'s `client.disableReconnection()` are called but not defined in the shown code. The first is modelled as the recorded (question id, answer) pair. The second is a flag on the client.
- `TeacherServer.broadcastMessage` is commented out in the shown code. Broadcasts are logged on the exam service.
- File I/O is left out: the configuration store, the answer cache and the CSV file writer. The store calls are logged, and the CSV export is the text the writer receives.
- Concurrency is left out: `ConcurrentHashMap`, `volatile`, timers on their own threads, and the server started on a new thread. Every handler runs atomically. The check-then-act race between `isStudentIdOnline` and `addStudent` in `TeacherBusinessHandler` (lines 102 and 111) is therefore not modelled.
- Registry.ClientConnectionManager.AddStudent: `addStudent` mutates the caller's `Student` object. The model stores an updated value, so that aliasing is not modelled. The same applies to exam papers shared between the list and the editor, and to `setQuestions` handing over the observable list.
- Grading.GradeExamAsWritten: a failing `updateScore` is not modelled on its own. The commit outcome stands for every SQL failure, and each of those rolls back.
- Text.ParseInt: accepts ASCII digits only. Java's `parseInt` also accepts other Unicode decimal digits.
- Text.EqualsIgnoreCase: folds ASCII letters only. Java folds every Unicode letter.
- Results.ResultOf: a null id or name is rendered "null" when the result is built rather than when it is written. The exported text is the same.
- Countdown.Display: its own contract states only the time-up case. The positive case is in Countdown.Hms and Countdown.HmsReadsBack.
- ReconnectControl.Backoff: the delays are 1, 2, 4, ... seconds, as `1 << retryCount` computes. The comment at StudentClient.java line 94 says 2, 4, 8; the model follows the code.
- UI-only screens (`ResultsController`, `ResultDetailsController`, `WaitingController`) and the app entry points are outside the core.

## Findings

| source | as written | input that shows it | evidently intended | confidence | as-written member | corrected member |
|---|---|---|---|---|---|---|
| student-app/src/main/java/com/bit/examsystem/student/controller/ExamController.java:121-141 | a multiple-choice question without options builds a placeholder box but never assigns it to `answerNode`, so `add(null)` at line 73 throws a NullPointerException out of `initialize`; the view fails to load, `ViewManager.switchScene` (student-app/src/main/java/com/bit/examsystem/student/util/ViewManager.java:18-29) keeps the previous scene, and the exam timer started at lines 47-52 runs on to an automatic submit | a published MULTI_CHOICE question with `options` null or empty | return the placeholder box, as the radio branch does | not executed | ExamView.CreateAnswerNodeAsWritten, ExamView.BuildQuestionUIAsWritten, ExamView.EmptyMultiChoiceBreaksPage | ExamView.CreateAnswerNode, ExamView.BuildQuestionUI |
| teacher-app/src/main/java/com/bit/examsystem/teacher/controller/ExamManagementController.java:168-176 | the duration is validated trimmed (line 168) but parsed untrimmed (line 176); a padded duration passes validation and then throws, after the title has already been set | duration text " 30" with a non-blank title | parse the trimmed duration | not executed | ExamManagement.SaveExamAsWritten, ExamManagement.ExamManagementController.HandleSaveExamAsWritten, ExamManagement.LeadingBlankDuration | ExamManagement.SaveExam, ExamManagement.SaveExamMeaning, ExamManagement.ExamManagementController.HandleSaveExam |
| teacher-app/src/main/java/com/bit/examsystem/teacher/service/GradingServiceImpl.java:55-69 | an answer matching a question whose score is null throws a NullPointerException when the score is unboxed (line 55). The handler at line 64 catches only SQLException, so no rollback happens, and `setAutoCommit(true)` in the finally block (line 69) commits the scores already written, as JDBC's `Connection.setAutoCommit` specifies | questions "q1" worth 5 and "q2" with a null score, both keyed "A", and one student answering "A" to both | roll the whole batch back on any failure, as the comment "Process submissions transactionally" at line 40 says | not executed | Grading.GradeExamAsWritten, Grading.UngradableAnswerCommitsPrefix | Grading.GradeExam, MainControl.MainController.HandleGradeExam |
