/** What a stream's callbacks have handed to the engine, with a monitor on the order. */
module Wire {
  import opened Common

  datatype Head = Head(status: string, contentLength: Option<nat>)

  /** `ordered`: promises came before the header block, it came once, body only after it, and nothing
      after the end. `writes` counts the body writes. */
  datatype Wire = Wire(promises: seq<string>, head: Option<Head>, body: string, writes: nat, fin: bool, ordered: bool)

  const SILENT := Wire([], None, [], 0, false, true)

  function Promise(w: Wire, paths: seq<string>): Wire {
    w.(promises := w.promises + paths, ordered := w.ordered && w.head.None?)
  }

  function SendHead(w: Wire, head: Head): Wire {
    w.(head := Some(head), ordered := w.ordered && w.head.None?)
  }

  function Write(w: Wire, chunk: string): Wire {
    w.(body := w.body + chunk, writes := w.writes + 1, ordered := w.ordered && w.head.Some? && !w.fin)
  }

  function Shutdown(w: Wire): Wire {
    w.(fin := true, ordered := w.ordered && w.head.Some? && !w.fin)
  }

  /** The monitor misses nothing: a promise after the headers, second headers, body before headers or after the end,
      and a second end or one without headers each clear it for good. */
  lemma MonitorIsStrict(w: Wire, paths: seq<string>, head: Head, chunk: string)
    ensures Promise(w, paths).ordered <==> w.ordered && w.head == None
    ensures SendHead(w, head).ordered <==> w.ordered && w.head == None
    ensures Write(w, chunk).ordered <==> w.ordered && w.head != None && !w.fin
    ensures Shutdown(w).ordered <==> w.ordered && w.head != None && !w.fin
    ensures Promise(w, paths).promises == w.promises + paths && SendHead(w, head).head == Some(head)
    ensures Write(w, chunk).body == w.body + chunk && Shutdown(w).fin
    ensures SILENT.body == [] && SILENT.promises == [] && SILENT.head == None && !SILENT.fin && SILENT.ordered
  {
  }
}
