/**
 * The JSON file uploader (src/components/upload.tsx): a drop zone and a
 * file chooser feeding one file at a time through an extension check, a
 * delayed read and a parse. The file read, its timer and JSON.parse are
 * outside the model: their outcome arrives as the `ReadDone` event.
 */
module Upload {
  import opened Json

  datatype Status = Idle | Uploading | Failed

  datatype State = State(dragging: bool, status: Status, message: string)

  datatype File = File(name: string, size: nat)

  /** What reading and parsing a file produced. */
  datatype ReadResult = ReadError | Unparseable | Parsed(content: JsonValue)

  datatype Event =
    | DragOver
    | DragLeave
    | Drop(files: seq<File>)         // files in the drop's data transfer
    | Choose(files: seq<File>)       // files picked in the hidden input
    | ReadDone(file: File, result: ReadResult)
    | Reset

  datatype Effect =
    | NoEffect
    | StartRead(file: File)                               // the timer and the reader are started
    | Uploaded(content: JsonValue, name: string, size: nat)  // `onFileUploaded` is called

  const NotJson: string := "Por favor, sube un archivo JSON válido"
  const BadJson: string := "El archivo no contiene JSON válido"
  const ReadFailed: string := "Error al leer el archivo"

  function Initial(): State {
    State(false, Idle, "")
  }

  /** `name.endsWith(".json")`, case-sensitive. */
  predicate IsJsonName(name: string) {
    |name| >= 5 && name[|name| - 5..] == ".json"
  }

  /**
   * `handleFileSelection`: the previous message is cleared; a file whose
   * name does not end in ".json" fails at once, any other starts a read.
   */
  function Select(s: State, f: File): (r: (State, Effect))
    ensures r.0.dragging == s.dragging
    ensures !IsJsonName(f.name) ==> r.0.status == Failed && r.0.message == NotJson && r.1 == NoEffect
    ensures IsJsonName(f.name) ==> r.0.status == Uploading && r.0.message == "" && r.1 == StartRead(f)
  {
    var cleared := s.(message := "");
    if !IsJsonName(f.name) then (cleared.(message := NotJson, status := Failed), NoEffect)
    else (cleared.(status := Uploading), StartRead(f))
  }

  /** The first of the files, when there is any. */
  function SelectFirst(s: State, files: seq<File>): (r: (State, Effect))
    ensures |files| == 0 ==> r == (s, NoEffect)
    ensures |files| > 0 ==> r == Select(s, files[0])
    ensures |files| > 0 && IsJsonName(files[0].name) ==> r.1 == StartRead(files[0])
  {
    if |files| > 0 then Select(s, files[0]) else (s, NoEffect)
  }

  function Step(s: State, e: Event): (r: (State, Effect))
    ensures e.DragOver? ==> r == (s.(dragging := true), NoEffect)
    ensures e.DragLeave? ==> r == (s.(dragging := false), NoEffect)
    ensures e.Drop? && |e.files| == 0 ==> r == (s.(dragging := false), NoEffect)
    ensures e.Drop? && |e.files| > 0 ==> r == Select(s.(dragging := false), e.files[0])
    ensures e.Choose? && |e.files| == 0 ==> r == (s, NoEffect)
    ensures e.Choose? && |e.files| > 0 ==> r == Select(s, e.files[0])
    ensures e.Reset? ==> r == (s.(status := Idle, message := ""), NoEffect)
    ensures e.ReadDone? && e.result.Parsed? ==>
              r == (s.(status := Idle), Uploaded(e.result.content, e.file.name, e.file.size))
    ensures e.ReadDone? && e.result.Unparseable? ==> r == (s.(status := Failed, message := BadJson), NoEffect)
    ensures e.ReadDone? && e.result.ReadError? ==> r == (s.(status := Failed, message := ReadFailed), NoEffect)
  {
    match e
    case DragOver => (s.(dragging := true), NoEffect)
    case DragLeave => (s.(dragging := false), NoEffect)
    case Drop(files) => SelectFirst(s.(dragging := false), files)
    case Choose(files) => SelectFirst(s, files)
    case ReadDone(f, result) =>
      (match result
       case Parsed(content) => (s.(status := Idle), Uploaded(content, f.name, f.size))
       case Unparseable => (s.(status := Failed, message := BadJson), NoEffect)
       case ReadError => (s.(status := Failed, message := ReadFailed), NoEffect))
    case Reset => (s.(status := Idle, message := ""), NoEffect)
  }

  /** Only a file with a ".json" name is ever read. */
  lemma OnlyJsonIsRead(s: State, e: Event)
    ensures Step(s, e).1.StartRead? ==> IsJsonName(Step(s, e).1.file.name)
    ensures Step(s, e).1.StartRead? ==> Step(s, e).0.status == Uploading
  {
  }

  /** A failure always shows one of the three messages. */
  predicate Explained(s: State) {
    s.status == Failed ==> s.message in {NotJson, BadJson, ReadFailed}
  }

  /** However events interleave, a failure is never shown without its message. */
  lemma StepKeepsExplained(s: State, e: Event)
    requires Explained(s)
    ensures Explained(Step(s, e).0)
  {
  }

  /**
   * While one file is handled at a time, a read finishes only while
   * uploading, and the message is non-empty exactly when the status is a
   * failure.
   */
  predicate Orderly(s: State, e: Event) {
    e.ReadDone? ==> s.status == Uploading
  }

  predicate Consistent(s: State) {
    s.status == Failed <==> s.message != ""
  }

  lemma StepKeepsConsistent(s: State, e: Event)
    requires Consistent(s) && Orderly(s, e)
    ensures Consistent(Step(s, e).0)
  {
  }

  function Run(s: State, events: seq<Event>): (r: State)
    decreases |events|
  {
    if |events| == 0 then s else Run(Step(s, events[0]).0, events[1..])
  }

  predicate OrderlyRun(s: State, events: seq<Event>)
    decreases |events|
  {
    |events| == 0 || (Orderly(s, events[0]) && OrderlyRun(Step(s, events[0]).0, events[1..]))
  }

  /** From the initial state, an orderly run of events keeps the message and the status in step. */
  lemma {:induction false} RunKeepsConsistent(s: State, events: seq<Event>)
    requires Consistent(s) && OrderlyRun(s, events)
    ensures Consistent(Run(s, events))
    decreases |events|
  {
    if |events| > 0 {
      StepKeepsConsistent(s, events[0]);
      RunKeepsConsistent(Step(s, events[0]).0, events[1..]);
    }
  }

  /** Dropping "data.json" and reading it successfully hands the parsed value on and returns to idle. */
  lemma DropThenParse(f: File, content: JsonValue)
    requires IsJsonName(f.name)
    ensures var (s1, e1) := Step(Initial(), Drop([f]));
            var (s2, e2) := Step(s1, ReadDone(f, Parsed(content)));
            s1.status == Uploading && e1 == StartRead(f) &&
            s2 == Initial() && e2 == Uploaded(content, f.name, f.size)
  {
  }

  /** A file not named ".json" fails without being read; a retry clears the message. */
  lemma WrongExtensionThenReset(f: File)
    requires !IsJsonName(f.name)
    ensures var (s1, e1) := Step(Initial(), Choose([f]));
            s1.status == Failed && s1.message == NotJson && e1 == NoEffect &&
            Step(s1, Reset).0 == Initial()
  {
  }
}
