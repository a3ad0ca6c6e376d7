/** The writer that turns a run's output into log lines (internal/server/backup.go:722-750). */
module LogWriter {
  import opened Text
  import opened BackupStore

  /** The complete lines of an output. */
  function Complete(o: string): seq<string>
    decreases |o|
  {
    if '\n' !in o then [] else [CutLine(o).0] + Complete(CutLine(o).1)
  }

  /** What follows the last newline of an output. */
  function Partial(o: string): string
    decreases |o|
  {
    if '\n' !in o then o else Partial(CutLine(o).1)
  }

  /** The newline-split of an output; a trailing partial line counts when not empty. */
  function SplitOutput(o: string): seq<string> {
    Complete(o) + if Partial(o) != "" then [Partial(o)] else []
  }

  /** Lines put back together. */
  function Terminated(lines: seq<string>): string {
    if lines == [] then "" else lines[0] + "\n" + Terminated(lines[1..])
  }

  /** Splitting loses nothing, and no line holds a newline: with `SplitUnique` this
      determines the split. */
  lemma {:induction false} SplitComplete(o: string)
    ensures Terminated(Complete(o)) + Partial(o) == o
    ensures '\n' !in Partial(o) && forall l :: l in Complete(o) ==> '\n' !in l
    decreases |o|
  {
    if '\n' !in o {
      assert "" + o == o;
    } else {
      var (line, rest) := CutLine(o);
      SplitComplete(rest);
      assert Complete(o)[0] == line && Complete(o)[1..] == Complete(rest);
      Regroup(line + "\n", Terminated(Complete(rest)), Partial(rest));
    }
  }

  lemma {:induction false} SplitUnique(lines: seq<string>, tail: string)
    requires '\n' !in tail && forall i :: 0 <= i < |lines| ==> '\n' !in lines[i]
    ensures Complete(Terminated(lines) + tail) == lines && Partial(Terminated(lines) + tail) == tail
  {
    if lines == [] {
      assert Terminated(lines) + tail == tail;
    } else {
      var rest := Terminated(lines[1..]) + tail;
      assert Terminated(lines) + tail == lines[0] + "\n" + rest;
      CutLineAt(lines[0], rest);
      assert (lines[0] + "\n" + rest)[|lines[0]|] == '\n';
      SplitUnique(lines[1..], tail);
    }
  }

  lemma {:induction false} TerminatedConcat(a: seq<string>, b: seq<string>)
    ensures Terminated(a + b) == Terminated(a) + Terminated(b)
  {
    if a == [] {
      assert a + b == b;
    } else {
      assert (a + b)[0] == a[0] && (a + b)[1..] == a[1..] + b;
      TerminatedConcat(a[1..], b);
      Regroup(a[0] + "\n", Terminated(a[1..]), Terminated(b));
    }
  }

  /** Output may be split anywhere: what is left over goes in front of what comes next. */
  lemma SplitConcat(a: string, b: string)
    ensures Complete(a + b) == Complete(a) + Complete(Partial(a) + b)
    ensures Partial(a + b) == Partial(Partial(a) + b)
  {
    var front, mid := Complete(a), Partial(a) + b;
    SplitComplete(a);
    SplitComplete(mid);
    TerminatedConcat(front, Complete(mid));
    Regroup(Terminated(front), Terminated(Complete(mid)), Partial(mid));
    Regroup(Terminated(front), Partial(a), b);
    forall i | 0 <= i < |front + Complete(mid)| ensures '\n' !in (front + Complete(mid))[i] {
      assert (front + Complete(mid))[i] in front || (front + Complete(mid))[i] in Complete(mid);
    }
    SplitUnique(front + Complete(mid), Partial(mid));
  }

  // ------------------------------------------------------------------------ the writer

  /** Rows appended one after the other. */
  function AppendRows(db: Tables, id: string, lines: seq<string>): Tables
    decreases |lines|
  {
    if lines == [] then db else AppendRows(AppendRow(db, id, lines[0]), id, lines[1..])
  }

  lemma {:induction false} AppendRowsSnoc(db: Tables, id: string, lines: seq<string>, line: string)
    ensures AppendRows(db, id, lines + [line]) == AppendRow(AppendRows(db, id, lines), id, line)
    decreases |lines|
  {
    if lines == [] {
      assert [] + [line] == [line];
    } else {
      assert (lines + [line])[0] == lines[0] && (lines + [line])[1..] == lines[1..] + [line];
      AppendRowsSnoc(AppendRow(db, id, lines[0]), id, lines[1..], line);
    }
  }

  lemma {:induction false} AppendRowsConcat(db: Tables, id: string, a: seq<string>, b: seq<string>)
    ensures AppendRows(db, id, a + b) == AppendRows(AppendRows(db, id, a), id, b)
    decreases |a|
  {
    if a == [] {
      assert a + b == b;
    } else {
      assert (a + b)[0] == a[0] && (a + b)[1..] == a[1..] + b;
      AppendRowsConcat(AppendRow(db, id, a[0]), id, a[1..], b);
    }
  }

  /** What appending rows does to the lines of a log. */
  lemma {:induction false} AppendRowsLines(db: Tables, id: string, lines: seq<string>)
    requires Numbered(LogOf(db, id))
    ensures Numbered(LogOf(AppendRows(db, id, lines), id))
    ensures Lines(LogOf(AppendRows(db, id, lines), id)) == Lines(LogOf(db, id)) + lines
    ensures AppendRows(db, id, lines).sessions == db.sessions
    ensures forall other :: other != id ==> LogOf(AppendRows(db, id, lines), other) == LogOf(db, other)
    decreases |lines|
  {
    if lines == [] {
      assert Lines(LogOf(db, id)) + [] == Lines(LogOf(db, id));
    } else {
      AppendKeepsNumbered(db, id, lines[0]);
      AppendRowsLines(AppendRow(db, id, lines[0]), id, lines[1..]);
      assert [lines[0]] + lines[1..] == lines;
      Regroup(Lines(LogOf(db, id)), [lines[0]], lines[1..]);
    }
  }

  /** Buffers output until a newline and appends each complete line to a session's log. */
  class StoreLogWriter {
    const store: Store
    const id: string
    var buf: string

    constructor (store: Store, id: string)
      ensures this.store == store && this.id == id && buf == ""
    {
      this.store := store;
      this.id := id;
      buf := "";
    }

    method Write(b: string) returns (n: nat)
      modifies this, store
      ensures n == |b|
      ensures store.Db() == AppendRows(old(store.Db()), id, Complete(old(buf) + b))
      ensures buf == Partial(old(buf) + b)
    {
      buf := buf + b;
      ghost var all, done: seq<string>, db := buf, [], store.Db();
      while '\n' in buf
        invariant done + Complete(buf) == Complete(all) && Partial(buf) == Partial(all)
        invariant store.Db() == AppendRows(db, id, done)
        decreases |buf|
      {
        var (line, rest) := CutLine(buf);
        AppendRowsSnoc(db, id, done, line);
        Regroup(done, [line], Complete(rest));
        store.AppendLog(id, line);
        done := done + [line];
        buf := rest;
      }
      assert done + [] == done;
      n := |b|;
    }

    /** Persists a trailing partial line when the run ends. */
    method Flush()
      modifies this, store
      ensures store.Db() == AppendRows(old(store.Db()), id, if old(buf) != "" then [old(buf)] else [])
      ensures buf == ""
    {
      if |buf| > 0 {
        store.AppendLog(id, buf);
        buf := "";
      }
    }
  }

  function Concat(chunks: seq<string>): string {
    if chunks == [] then "" else Concat(chunks[..|chunks| - 1]) + chunks[|chunks| - 1]
  }

  /** Writes the chunks one after the other, then flushes: however the output is cut into
      chunks, the session's log gets the newline-split of the whole, line by line and
      numbered on, and nothing else in the store changes. */
  method WriteAll(w: StoreLogWriter, chunks: seq<string>)
    requires w.buf == ""
    modifies w, w.store
    ensures w.store.Db() == AppendRows(old(w.store.Db()), w.id, SplitOutput(Concat(chunks)))
    ensures old(Numbered(LogOf(w.store.Db(), w.id))) ==>
      && Numbered(LogOf(w.store.Db(), w.id))
      && Lines(LogOf(w.store.Db(), w.id)) == old(Lines(LogOf(w.store.Db(), w.id))) + SplitOutput(Concat(chunks))
      && w.store.Db().sessions == old(w.store.Db().sessions)
      && forall other :: other != w.id ==> LogOf(w.store.Db(), other) == old(LogOf(w.store.Db(), other))
  {
    ghost var db := w.store.Db();
    for i := 0 to |chunks|
      invariant w.store.Db() == AppendRows(db, w.id, Complete(Concat(chunks[..i])))
      invariant w.buf == Partial(Concat(chunks[..i]))
    {
      assert chunks[..i + 1][..i] == chunks[..i];
      SplitConcat(Concat(chunks[..i]), chunks[i]);
      AppendRowsConcat(db, w.id, Complete(Concat(chunks[..i])), Complete(w.buf + chunks[i]));
      var n := w.Write(chunks[i]);
    }
    assert chunks[..|chunks|] == chunks;
    AppendRowsConcat(db, w.id, Complete(Concat(chunks)), if w.buf != "" then [w.buf] else []);
    w.Flush();
    if Numbered(LogOf(db, w.id)) {
      AppendRowsLines(db, w.id, SplitOutput(Concat(chunks)));
    }
  }
}
