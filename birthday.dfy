/** The birthday note (src/routes/api/birthday/+server.ts): one module-level
    message that GET reads and POST overwrites. */
module Birthday {
  import opened Js
  import opened Http

  const InitialMessage := "2025년 8월 30일 15:00 에 태어나다!"

  /** The module-level `birthdayMessage`. It holds whatever POST was given,
      so it is a JavaScript value and not necessarily a string. */
  class Note {
    var message: JsValue

    /** The message the server process starts with. */
    constructor ()
      ensures message == Str(InitialMessage)
    {
      message := Str(InitialMessage);
    }

    /** GET: answers `{ message }` and changes nothing. */
    method Get() returns (resp: Response)
      ensures resp == Response(200, MessageBody(message), None)
    {
      resp := Response(200, MessageBody(message), None);
    }

    /** POST: stores the body's `message` member as it is, with no check, and
        echoes it; a missing member is stored as `undefined`. */
    method Post(body: Body) returns (resp: Response)
      modifies this
      ensures message == Field(body, "message")
      ensures resp == Response(200, MessageBody(Field(body, "message")), None)
    {
      message := Field(body, "message");
      resp := Response(200, MessageBody(message), None);
    }
  }

  /** Before any POST, GET answers with the initial message. */
  method FirstGet() returns (resp: Response)
    ensures resp == Response(200, MessageBody(Str(InitialMessage)), None)
  {
    var note := new Note();
    resp := note.Get();
  }

  /** After two POSTs the last one wins: GET, asked twice, answers with
      exactly what the second POST echoed, and changes nothing. */
  method LastWriteWins(note: Note, first: Body, second: Body) returns (echoed: Response, got: Response)
    modifies note
    ensures echoed == got == Response(200, MessageBody(Field(second, "message")), None)
    ensures note.message == Field(second, "message")
  {
    var _ := note.Post(first);
    echoed := note.Post(second);
    var _ := note.Get();
    got := note.Get();
  }
}
