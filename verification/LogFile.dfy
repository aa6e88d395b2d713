/** `Log`: write_log and async_write_log on the fields they change.  A `FILE*` is the file
    it names, and `files` is what the files hold. */
module LogFile {
  import opened LogRotation
  import opened BlockingQueue
  import FifoSpec

  /** fputs of several lines, one after the other. */
  function AppendAll(s: Rotation, lines: seq<string>): Rotation
    decreases |lines|
  {
    if lines == [] then s else AppendAll(Append(s, lines[0]), lines[1..])
  }

  /** They all end up in the open file, in order, and no other file changes. */
  lemma {:induction false} AppendAllIs(s: Rotation, lines: seq<string>, f: FileId)
    ensures Content(AppendAll(s, lines).files, f) == Content(s.files, f) + (if f == s.fp then lines else [])
    decreases |lines|
  {
    if lines != [] {
      AppendAllIs(Append(s, lines[0]), lines[1..], f);
      assert lines == [lines[0]] + lines[1..];
    }
  }

  class Log {
    var count: nat
    var today: nat
    var splitLines: nat
    var fp: FileId
    var isAsync: bool
    var logQueue: BlockQueue<string>
    var files: map<FileId, seq<string>>
    ghost var history: seq<FileId>

    ghost predicate Valid()
      reads this, logQueue
    {
      splitLines > 0 && logQueue.Valid()
    }

    /** The files, and the fields that choose among them. */
    ghost function Disk(): Rotation
      reads this`splitLines, this`today, this`count, this`fp, this`files, this`history
    {
      Rotation(splitLines, today, count, fp, files, history)
    }

    ghost function Queue(): seq<string>
      requires Valid()
      reads this, logQueue, logQueue.slots
    {
      logQueue.Contents()
    }

    /** The constructor and init, on an empty directory.  A synchronous log has no queue;
        here it has one that nobody uses. */
    constructor (split: nat, maxQueueSize: int, date: Date)
      requires split > 0
      ensures Valid() && fresh(logQueue) && fresh(logQueue.slots)
      ensures Disk() == Start(split, date) && Queue() == []
      ensures isAsync == (maxQueueSize >= 1)
      ensures isAsync ==> logQueue.maxSize == maxQueueSize
    {
      count := 0;
      splitLines := split;
      today := date.mday;
      fp := FileId(date, 0);
      files := map[FileId(date, 0) := []];
      history := [FileId(date, 0)];
      isAsync := maxQueueSize >= 1;
      logQueue := new BlockQueue<string>(if maxQueueSize >= 1 then maxQueueSize else 1);
    }

    method Open(f: FileId)
      modifies this`fp, this`files, this`history
      ensures Disk() == LogRotation.Open(old(Disk()), f)
    {
      fp := f;
      if f !in files {
        files := files[f := []];
      }
      history := history + [f];
    }

    method Put(line: string)
      modifies this`files
      ensures Disk() == Append(old(Disk()), line)
    {
      files := files[fp := (if fp in files then files[fp] else []) + [line]];
    }

    /** The first critical section of write_log. */
    method ChooseFile(date: Date)
      requires splitLines > 0
      modifies this`count, this`today, this`fp, this`files, this`history
      ensures Disk() == Rotate(old(Disk()), date)
    {
      count := count + 1;
      if today != date.mday || count % splitLines == 0 {
        if today != date.mday {
          today := date.mday;
          count := 0;
          Open(FileId(date, 0));
        } else {
          Open(FileId(date, count / splitLines));
        }
      }
    }

    /** write_log, one call at a time; `line` is the text it formats. */
    method WriteLog(date: Date, line: string)
      requires Valid()
      modifies this`count, this`today, this`fp, this`files, this`history, logQueue, logQueue.slots
      ensures Valid()
      ensures var queued := isAsync && |old(Queue())| < logQueue.maxSize;
        && Disk() == (if queued then Rotate(old(Disk()), date) else Write(old(Disk()), date, line))
        && Queue() == (if queued then old(Queue()) + [line] else old(Queue()))
    {
      ChooseFile(date);
      var full := logQueue.Full();
      if isAsync && !full {
        var ok := logQueue.Push(line);
      } else {
        Put(line);
      }
    }

    /** async_write_log up to the pop that would wait: everything queued goes to the open
        file, in order. */
    method AsyncWriteLog()
      requires Valid()
      modifies this`files, logQueue`front, logQueue`size
      ensures Valid()
      ensures Queue() == []
      ensures Disk() == AppendAll(old(Disk()), old(Queue()))
    {
      var reply := logQueue.Pop();
      while reply.Item?
        invariant Valid()
        invariant reply.Item? || reply.Blocked?
        invariant reply.Blocked? ==> Queue() == []
        invariant AppendAll(Disk(), (if reply.Item? then [reply.item] else []) + Queue()) ==
                  AppendAll(old(Disk()), old(Queue()))
        decreases |Queue()|, reply.Item?
      {
        ghost var waiting := [reply.item] + Queue();
        assert waiting[1..] == Queue();
        Put(reply.item);
        reply := logQueue.Pop();
      }
    }
  }
}
