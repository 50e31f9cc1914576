/** Whole runs of the logged file system.  What a run does is defined without any log: which writes and creations take
    effect when, what each seal and flush is worth, follows from the operations alone.  The log does just that. */
module AdaRun {
  import opened Basics
  import opened LogEntry
  import opened LogImage
  import opened LogView
  import opened LogKinds
  import opened LogLengths
  import opened AdaLog
  import LogSort
  import MergeFlush

  /** Write and Create are the hooks up to their loops; Round is one more round of the loop somebody waits in. */
  datatype Op =
    | Write(ino: u64, index: u64, offset: nat, data: seq<int>)
    | Create(ino: u64)
    | Round
    | Seal
    | Flush(nr: u32)
    | Reclaim(key: Key)

  /** What a run did, as an observer of the files sees it. */
  datatype Event = Wrote(key: Key, offset: nat, data: seq<int>) | Made(ino: u64) | Sealed | Flushed(count: nat)

  // ---------- what the events mean for files and disk ----------

  predicate Sane(e: Event) { e.Wrote? ==> e.offset + |e.data| <= 4096 }

  function FilesAfter(start: Image, events: seq<Event>): Image {
    if events == [] then start
    else
      var before, e := FilesAfter(start, events[..|events| - 1]), events[|events| - 1];
      if e.Wrote? && Sane(e) then before[e.key := Patched(ImagePage(before, e.key), e.offset, e.data)] else before
  }

  /** The files at each seal. */
  function SealsOf(start: Image, events: seq<Event>): seq<Image> {
    if events == [] then []
    else
      SealsOf(start, events[..|events| - 1])
      + if events[|events| - 1].Sealed? then [FilesAfter(start, events[..|events| - 1])] else []
  }

  /** How many seals have been flushed. */
  function FlushedOf(events: seq<Event>): nat {
    if events == [] then 0
    else FlushedOf(events[..|events| - 1]) + if events[|events| - 1].Flushed? then events[|events| - 1].count else 0
  }

  /** The disk as it should be: the files at the last flushed seal. */
  ghost predicate Durable(disk: Image, start: Image, events: seq<Event>) {
    && FlushedOf(events) <= |SealsOf(start, events)|
    && disk == if FlushedOf(events) == 0 then start else SealsOf(start, events)[FlushedOf(events) - 1]
  }

  // ---------- which events the operations bring about ----------

  /** What is unflushed, what it is about, under which page keys and of which lengths, where the sealed stretches of it
      end, and from where on slots are taken. */
  datatype Books = Books(entries: seq<Kind>, pgis: seq<int>, lens: seq<int>, ends: seq<nat>, begin: nat) {
    predicate Ok() {
      |pgis| == |lens| == |entries| && |ends| > 0 && ends[0] <= ends[|ends| - 1] <= ends[0] + |entries|
    }

    /** What is not sealed yet. */
    function Active(): seq<Kind> { if Ok() then entries[ends[|ends| - 1] - ends[0]..] else [] }

    predicate Full() { Ok() && ends[0] + |entries| == begin + LOG_LEN }

    /** The page key of one more entry of the page: version 1, or one more than the last in the log. */
    function NextPgi(key: Key): int { if Ok() then LastPgi(entries, pgis, key) + 1 else 0 }

    /** How many seals a flush of up to nr takes, and how many entries they hold. */
    function Count(nr: nat): nat { if |ends| == 0 then 0 else if nr < |ends| then nr else |ends| - 1 }

    function Load(nr: nat): int { if |ends| == 0 then 0 else ends[Count(nr)] as int - ends[0] }

    /** What such a flush hands over: every page among those entries, with the greatest length. */
    function Handed(nr: nat): map<Key, int> {
      if Ok() && 0 <= Load(nr) <= |entries| then Greatest(entries[..Load(nr)], lens[..Load(nr)]) else map[]
    }

    /** The last entry of the page, with the length of another write to it. */
    function Resized(key: Key, len: int): Books {
      var k := LastAt(entries, key); if 0 <= k < |lens| then this.(lens := lens[k := len]) else this
    }

    function With(kind: Kind, pgi: int, len: int): Books {
      this.(entries := entries + [kind], pgis := pgis + [pgi], lens := lens + [len])
    }
  }

  /** A page that is written again before it is sealed needs no new entry: the last write's length is the entry's. */
  function Booked(b: Books, e: Event, pgi: int): Books {
    match e
    case Wrote(key, offset, data) =>
      if OfPage(key) in b.Active() then b.Resized(key, offset + |data|) else b.With(OfPage(key), pgi, offset + |data|)
    case Made(ino) => b.With(OfInode(ino), 0, 0)
    case Sealed => if b.Ok() then b.(ends := b.ends + [b.ends[0] + |b.entries|]) else b
    case Flushed(t) =>
      if b.Ok() && t < |b.ends| && b.ends[0] <= b.ends[t] <= b.ends[0] + |b.entries| then
        var n := b.ends[t] - b.ends[0];
        Books(b.entries[n..], b.pgis[n..], b.lens[n..], b.ends[t..], BeginAfter(b.begin, b.ends[0], b.entries[..n]))
      else b
  }

  /** The events so far, the books after them, the write or creation that waits for room, with its page key, and what
      each flush has handed over. */
  datatype Trace = Trace(events: seq<Event>, books: Books, waiting: Option<Event>, pgi: int,
                         handed: seq<map<Key, int>>) {
    function Then(e: Event): Trace { this.(events := events + [e], books := Booked(books, e, pgi)) }
  }

  const NOTHING: Trace := Trace([], Books([], [], [], [0], 0), None, 0, [])

  /** A write to an active page happens at once; any other, and a creation, with the first round that finds room,
      and a round that finds none seals; a seal counts if there is something to seal; a flush takes as many seals as
      there are. */
  function Step(t: Trace, op: Op): Trace {
    var b := t.books;
    match op
    case Write(ino, index, offset, data) =>
      var e := Wrote(Key(ino, index), offset, data);
      if OfPage(e.key) in b.Active() then t.Then(e) else t.(waiting := Some(e), pgi := b.NextPgi(e.key))
    case Create(ino) => t.(waiting := Some(Made(ino)), pgi := 0)
    case Round =>
      if t.waiting.None? then t
      else if !b.Full() then t.Then(t.waiting.value).(waiting := None)
      else if b.Active() != [] then t.Then(Sealed)
      else t
    case Seal => if b.Active() != [] then t.Then(Sealed) else t
    case Flush(nr) =>
      if b.Count(nr) > 0 then t.Then(Flushed(b.Count(nr))).(handed := t.handed + [b.Handed(nr)]) else t
    case Reclaim(key) => t
  }

  function TraceOf(ops: seq<Op>): Trace {
    if ops == [] then NOTHING else Step(TraceOf(ops[..|ops| - 1]), ops[|ops| - 1])
  }

  // ---------- what the log can do ----------

  /** One waits at a time; inode numbers and page indices fit their fields; the next version of the page fits its 8
      bits; the sequence number of a page's entry is not the one that means none; and the sort can be relied on for
      the range taken, and does not overflow its stack. */
  predicate CanDo(log: Log, op: Op, waiting: Option<Event>)
    reads log, log.entries
  {
    && log.entries.Length == LOG_LEN && |log.trans| > 0
    && match op
       case Write(ino, index, offset, data) =>
         && waiting.None? && ino != INVAL_INO && index < 0x100_0000_0000_0000 && offset + |data| <= 4096
         && log.Room(Key(ino, index))
       case Create(ino) => waiting.None? && ino != INVAL_INO
       case Round => waiting.Some? && waiting.value.Wrote? ==> log.lEnd != L_NULL
       case Seal => true
       case Flush(nr) => log.Sortable(log.Taken(nr)) && log.GetsThrough(log.Taken(nr))
       case Reclaim(key) => true
  }

  /** The same as far as it can be told from the operations before: for a flush, at most 35 entries at a time. */
  predicate Fits(t: Trace, op: Op) {
    var b := t.books;
    match op
    case Write(ino, index, offset, data) =>
      && t.waiting.None? && ino != INVAL_INO && index < 0x100_0000_0000_0000 && offset + |data| <= 4096
      && (OfPage(Key(ino, index)) in b.Active() || b.NextPgi(Key(ino, index)) % 256 != 0)
    case Create(ino) => t.waiting.None? && ino != INVAL_INO
    case Round =>
      t.waiting.Some? && t.waiting.value.Wrote? ==> b.Ok() && Unsigned(b.ends[0] + |b.entries|) != L_NULL
    case Flush(nr) => b.Ok() && (b.Count(nr) > 0 ==> Sorts(b, nr))
    case _ => true
  }

  /** At most 35 entries, clear of 2^31, with keys that le_cmp compares as it should. */
  predicate Sorts(b: Books, nr: nat) {
    && b.Ok() && b.Load(nr) <= 35 && b.Load(nr) <= |b.entries|
    && LogSort.Clear(Unsigned(b.ends[0]), Unsigned(b.ends[b.Count(nr)]))
    && KeysAgree(b.entries, b.pgis, b.Load(nr))
  }

  // ---------- the log against the events ----------

  lemma {:induction false} OneMore(start: Image, events: seq<Event>, e: Event)
    ensures FlushedOf(events + [e]) == FlushedOf(events) + (if e.Flushed? then e.count else 0)
    ensures SealsOf(start, events + [e])
         == SealsOf(start, events) + if e.Sealed? then [FilesAfter(start, events)] else []
    ensures e.Wrote? && Sane(e) ==>
              var files := FilesAfter(start, events);
              FilesAfter(start, events + [e]) == files[e.key := Patched(ImagePage(files, e.key), e.offset, e.data)]
    ensures !e.Wrote? ==> FilesAfter(start, events + [e]) == FilesAfter(start, events)
  {
    assert (events + [e])[..|events|] == events;
  }

  /** The write that waits has its entry built and its page written, but the files do not have it yet. */
  ghost predicate Waits(log: Log, t: Trace)
    reads log
  {
    match t.waiting
    case None => log.waiting.None?
    case Some(Made(ino)) => log.waiting.None? && ino != INVAL_INO && t.pgi == 0
    case Some(Wrote(key, offset, data)) =>
      && offset + |data| <= 4096 && log.waiting.Some? && KeyOf(log.waiting.value) == key
      && log.waiting.value.pgi == t.pgi && log.waiting.value.Length() == offset + |data|
      && log.waiting.value.page in log.content
      && log.content[log.waiting.value.page] == Patched(ImagePage(log.file, key), offset, data)
    case Some(_) => false
  }

  ghost function BooksFor(log: Log): Books
    reads log
  {
    Books(Kinds(log.log), Pgis(log.log), Lens(log.log), log.ends, log.begin)
  }

  /** The log, its images and the disk agree with the events so far. */
  ghost predicate Agree(log: Log, start: Image, t: Trace)
    reads log, log.entries, log.sorter
  {
    && log.Valid() && Waits(log, t)
    && log.file == FilesAfter(start, t.events) && Durable(log.disk, start, t.events)
    && log.images == SealsOf(start, t.events)[FlushedOf(t.events)..]
    && t.books == BooksFor(log)
  }

  lemma {:induction false} ShapeFacts(log: Log)
    requires log.Valid()
    ensures log.entries.Length == LOG_LEN && |log.trans| == |log.ends| > 0 && |log.log| <= LOG_LEN
    ensures log.begin <= log.ends[0] <= log.ends[|log.ends| - 1] <= log.ends[0] + |log.log| <= log.begin + LOG_LEN
    ensures log.lEnd == Unsigned(log.ends[0] + |log.log|)
  {
  }

  /** What fits can be done; and but for flushes, only that. */
  lemma {:induction false} FitsCanDo(log: Log, start: Image, t: Trace, op: Op)
    requires Agree(log, start, t)
    ensures Fits(t, op) ==> CanDo(log, op, t.waiting)
    ensures CanDo(log, op, t.waiting) && !op.Flush? ==> Fits(t, op)
  {
    hide Log.Valid, Durable, FilesAfter, SealsOf, FlushedOf, Patched, KeyOf, ImagePage, Kinds, Pgis, Log.Room,
         Log.Sortable, Log.GetsThrough, LastPgi, Sorts, Unsigned;
    ShapeFacts(log);
    ActiveBooks(log, t.books);
    match op
    case Write(ino, index, _, _) =>
      if t.waiting.None? {
        log.RoomExactly(Key(ino, index));
      }
    case Flush(nr) =>
      if Fits(t, op) {
        FlushFits(log, t.books, nr);
      }
    case _ =>
  }

  lemma {:induction false} FlushFits(log: Log, b: Books, nr: u32)
    requires log.Valid() && b == BooksFor(log) && (b.Count(nr) > 0 ==> Sorts(b, nr))
    ensures log.entries.Length == LOG_LEN && |log.trans| > 0
    ensures log.Sortable(log.Taken(nr)) && log.GetsThrough(log.Taken(nr))
  {
    hide Ok, Imaged, Below, Log.GetsThrough, Log.Sortable, LogSort.Clear, KeysAgree, Kinds, Pgis;
    ShapeFacts(log);
    var t := log.Taken(nr);
    assert t == b.Count(nr);
    if t > 0 {
      log.SortableExactly(t);
      log.FewGetThrough(t);
    } else {
      NothingTaken(log);
    }
  }

  lemma {:induction false} NothingTaken(log: Log)
    requires log.entries.Length == LOG_LEN && |log.trans| > 0
    ensures log.Sortable(0) && log.GetsThrough(0)
  {
  }

  /** The books know what is active. */
  lemma {:induction false} ActiveBooks(log: Log, b: Books)
    requires log.Valid() && b == BooksFor(log)
    ensures b.Ok() && b.Active() == log.ActiveKinds()
    ensures b.Active() == [] <==> log.ends[|log.ends| - 1] == log.ends[0] + |log.log|
    ensures b.Full() <==> log.ends[0] + |log.log| == log.begin + LOG_LEN
    ensures forall key :: b.NextPgi(key) == LastPgi(Kinds(log.log), Pgis(log.log), key) + 1
  {
    hide Log.Valid, LastPgi;
    ShapeFacts(log);
  }

  /** An event that is not a flush leaves the disk where it should be. */
  lemma {:induction false} Extends(disk: Image, start: Image, events: seq<Event>, e: Event)
    requires Durable(disk, start, events) && !e.Flushed?
    ensures FlushedOf(events) <= |SealsOf(start, events)| && FlushedOf(events + [e]) == FlushedOf(events)
    ensures Durable(disk, start, events + [e])
    ensures SealsOf(start, events + [e])[FlushedOf(events)..]
         == SealsOf(start, events)[FlushedOf(events)..] + if e.Sealed? then [FilesAfter(start, events)] else []
    ensures e.Wrote? && Sane(e) ==>
              var files := FilesAfter(start, events);
              FilesAfter(start, events + [e]) == files[e.key := Patched(ImagePage(files, e.key), e.offset, e.data)]
    ensures !e.Wrote? ==> FilesAfter(start, events + [e]) == FilesAfter(start, events)
  {
    hide FilesAfter, SealsOf, FlushedOf, Patched, ImagePage;
    OneMore(start, events, e);
  }

  lemma {:induction false} Drains(disk: Image, disk': Image, start: Image, events: seq<Event>, images: seq<Image>,
                                  t: nat)
    requires Durable(disk, start, events) && images == SealsOf(start, events)[FlushedOf(events)..]
    requires 0 < t <= |images| && disk' == images[t - 1]
    ensures var events' := events + [Flushed(t)];
            && Durable(disk', start, events') && FilesAfter(start, events') == FilesAfter(start, events)
            && images[t..] == SealsOf(start, events')[FlushedOf(events')..]
  {
    hide FilesAfter, SealsOf, FlushedOf;
    OneMore(start, events, Flushed(t));
  }

  /** A write happens at once, if its page is active, or waits. */
  lemma {:induction false} WriteIs(t: Trace, op: Op, e: Event)
    requires op.Write? && e == Wrote(Key(op.ino, op.index), op.offset, op.data)
    ensures Step(t, op)
            == if OfPage(e.key) in t.books.Active() then
                 t.(events := t.events + [e], books := t.books.Resized(e.key, e.offset + |e.data|))
               else t.(waiting := Some(e), pgi := t.books.NextPgi(e.key))
  {
  }

  method DoWrite(log: Log, op: Op, ghost t: Trace, ghost start: Image) returns (waiting: Option<Event>)
    requires Agree(log, start, t) && op.Write? && CanDo(log, op, t.waiting)
    modifies log, log.entries
    ensures Agree(log, start, Step(t, op)) && waiting == Step(t, op).waiting
  {
    hide Log.Valid, Durable, FilesAfter, SealsOf, FlushedOf, Patched, KeyOf, ImagePage, Log.Room, Kinds, Pgis, Lens,
         LastPgi, LastAt, TurnedTo, Step, Booked, Books.Ok, Books.Active, Books.Full, Log.ActiveKinds, Books.NextPgi;
    ShapeFacts(log);
    ActiveBooks(log, t.books);
    var e := Wrote(Key(op.ino, op.index), op.offset, op.data);
    WriteIs(t, op, e);
    Extends(log.disk, start, t.events, e);
    var done := log.StartWrite(op.ino, op.index, op.offset, op.data);
    waiting := if done then None else Some(e);
  }

  /** The page of a waiting write is not active. */
  lemma {:induction false} WaitingNotActive(log: Log)
    requires log.Valid() && log.waiting.Some?
    ensures OfPage(KeyOf(log.waiting.value)) !in log.ActiveKinds()
    ensures KindOf(log.waiting.value) == OfPage(KeyOf(log.waiting.value))
  {
    hide KeyOf, Entry.Meta, Replay;
    var v, pend, key := log.Now(), log.Pend(), KeyOf(log.waiting.value);
    forall j | v.sealed <= j < |v.log|
      ensures Kinds(v.log)[j] != OfPage(key)
    {
      assert EntryOk(v, pend, j);
    }
  }

  method DoRound(log: Log, waiting: Option<Event>, ghost t: Trace, ghost start: Image)
    returns (waiting': Option<Event>)
    requires Agree(log, start, t) && CanDo(log, Round, waiting) && waiting == t.waiting
    modifies log, log.entries
    ensures Agree(log, start, Step(t, Round)) && waiting' == Step(t, Round).waiting
  {
    hide Agree, Step, CanDo;
    if waiting.None? {
      NobodyWaits(t);
      waiting' := None;
    } else {
      WaitsFor(log, start, t);
      if waiting.value.Wrote? {
        waiting' := WriterRound(log, waiting.value, t, start);
      } else {
        waiting' := MakerRound(log, waiting.value, t, start);
      }
    }
  }

  lemma {:induction false} NobodyWaits(t: Trace)
    requires t.waiting.None?
    ensures Step(t, Round) == t
  {
  }

  lemma {:induction false} WaitsFor(log: Log, start: Image, t: Trace)
    requires Agree(log, start, t) && t.waiting.Some?
    ensures t.waiting.value.Wrote? || t.waiting.value.Made?
    ensures t.waiting.value.Wrote? && CanDo(log, Round, t.waiting) ==> log.lEnd != L_NULL
  {
  }

  lemma {:induction false} EntryMore(log: seq<Entry>, e: Entry)
    ensures Kinds(log + [e]) == Kinds(log) + [KindOf(e)] && Pgis(log + [e]) == Pgis(log) + [e.pgi]
    ensures Lens(log + [e]) == Lens(log) + [e.Length()]
  {
    KindsMore(log, e);
    PgisMore(log, e);
    LensMore(log, e);
  }

  /** A round with e waiting, e of no active page: e happens if there is room, else what is active is sealed. */
  lemma {:induction false} RoundIs(t: Trace, e: Event)
    requires t.waiting == Some(e) && t.books.Ok()
    requires (e.Wrote? && OfPage(e.key) !in t.books.Active()) || (e.Made? && t.pgi == 0)
    ensures var b, kind := t.books, if e.Wrote? then OfPage(e.key) else OfInode(e.ino);
            var len := if e.Wrote? then e.offset + |e.data| else 0;
            Step(t, Round)
            == if !b.Full() then
                 t.(events := t.events + [e], books := b.With(kind, t.pgi, len), waiting := None)
               else if b.Active() != [] then
                 t.(events := t.events + [Sealed], books := b.(ends := b.ends + [b.ends[0] + |b.entries|]))
               else t
  {
  }

  /** The books with one more entry. */
  lemma {:induction false} MoreBooks(log: Log, e: Entry)
    ensures BooksFor(log).With(KindOf(e), e.pgi, e.Length())
            == Books(Kinds(log.log) + [KindOf(e)], Pgis(log.log) + [e.pgi], Lens(log.log) + [e.Length()], log.ends,
                     log.begin)
  {
  }

  method WriterRound(log: Log, e: Event, ghost t: Trace, ghost start: Image) returns (waiting: Option<Event>)
    requires Agree(log, start, t) && t.waiting == Some(e) && e.Wrote? && log.lEnd != L_NULL
    modifies log, log.entries
    ensures Agree(log, start, Step(t, Round)) && waiting == Step(t, Round).waiting
  {
    hide Log.Valid, Durable, FilesAfter, SealsOf, FlushedOf, Patched, KeyOf, ImagePage, Kinds, Pgis, Lens, KindOf,
         LastPgi, Step, Booked, Books.Ok, Books.Active, Books.Full, Books.With, Log.ActiveKinds, Books.NextPgi;
    ShapeFacts(log);
    ActiveBooks(log, t.books);
    Extends(log.disk, start, t.events, e);
    Extends(log.disk, start, t.events, Sealed);
    WaitingNotActive(log);
    RoundIs(t, e);
    EntryMore(log.log, log.waiting.value);
    MoreBooks(log, log.waiting.value);
    var ret, sealed := log.TryAppend();
    waiting := if ret == 0 then None else Some(e);
  }

  method MakerRound(log: Log, e: Event, ghost t: Trace, ghost start: Image) returns (waiting: Option<Event>)
    requires Agree(log, start, t) && t.waiting == Some(e) && e.Made?
    modifies log, log.entries
    ensures Agree(log, start, Step(t, Round)) && waiting == Step(t, Round).waiting
  {
    hide Log.Valid, Durable, FilesAfter, SealsOf, FlushedOf, Patched, KeyOf, ImagePage, Kinds, Pgis, Lens, KindOf,
         LastPgi, Step, Booked, Books.Ok, Books.Active, Books.Full, Books.With, Log.ActiveKinds, Books.NextPgi;
    ShapeFacts(log);
    ActiveBooks(log, t.books);
    Extends(log.disk, start, t.events, e);
    Extends(log.disk, start, t.events, Sealed);
    RoundIs(t, e);
    EntryMore(log.log, Entry(e.ino, 0, 0x1_0000, 0));
    MoreBooks(log, Entry(e.ino, 0, 0x1_0000, 0));
    InodeKind(e.ino);
    var ret, sealed := log.TryCreate(e.ino);
    waiting := if ret == 0 then None else Some(e);
  }

  lemma {:induction false} InodeKind(ino: u64)
    ensures KindOf(Entry(ino, 0, 0x1_0000, 0)) == OfInode(ino) && Entry(ino, 0, 0x1_0000, 0).Length() == 0
  {
  }

  method DoSeal(log: Log, ghost t: Trace, ghost start: Image)
    requires Agree(log, start, t)
    modifies log
    ensures Agree(log, start, Step(t, Seal)) && Step(t, Seal).waiting == t.waiting
  {
    hide Log.Valid, Durable, FilesAfter, SealsOf, FlushedOf, Patched, KeyOf, ImagePage, Kinds, Pgis, Lens, LastPgi;
    ShapeFacts(log);
    ActiveBooks(log, t.books);
    Extends(log.disk, start, t.events, Sealed);
    var ret := log.Seal();
  }

  method DoFlush(log: Log, nr: u32, ghost t: Trace, ghost start: Image) returns (handed: seq<map<Key, int>>)
    requires Agree(log, start, t) && CanDo(log, Flush(nr), t.waiting)
    modifies log, log.entries, log.sorter
    ensures Agree(log, start, Step(t, Flush(nr))) && Step(t, Flush(nr)).waiting == t.waiting
    ensures Step(t, Flush(nr)).handed == t.handed + handed
  {
    hide Log.Valid, Durable, FilesAfter, SealsOf, FlushedOf, Patched, KeyOf, ImagePage, Kinds, Pgis, Log.Sortable,
         Log.GetsThrough, BeginAfter, Booked, LastPgi, Log.CanWalk, SameFor, Apply, Passed, Lost,
         MergeFlush.Submitted, MergeFlush.DataPages, Log.LeftBySort, Lengths, Greatest, Lens, UnlessLost, FlushedLog;
    ShapeFacts(log);
    ActiveBooks(log, t.books);
    ghost var disk, images, count := log.disk, log.images, log.Taken(nr);
    ghost var entries, ends, begin := log.log, log.ends, log.begin;
    Walks(log, count);
    var ret, sorted, sub := log.Flush(nr, _ => false);
    handed := if ret == ENODATA then [] else [Lengths(sub)];
    if count > 0 {
      Drains(disk, log.disk, start, t.events, images, count);
      FlushBooked(t.books, entries, log.log, log.begin, ends, count, nr, sub);
    }
  }

  lemma {:induction false} Walks(log: Log, t: nat)
    requires log.Valid() && log.entries.Length == LOG_LEN && t < |log.trans| && log.Sortable(t) && log.GetsThrough(t)
    ensures log.CanWalk(t)
  {
    if t > 0 {
      log.SortedTaken(t);
    }
  }

  lemma {:induction false} FlushBooked(b: Books, log: seq<Entry>, log': seq<Entry>, begin': nat, ends: seq<nat>, t: nat,
                                       nr: nat, sub: seq<Entry>)
    requires b.Ok() && b == Books(Kinds(log), Pgis(log), Lens(log), ends, b.begin) && t == b.Count(nr)
    requires FlushedLog(log, log', b.begin, begin', ends, t, sub)
    ensures forall pgi :: Booked(b, Flushed(t), pgi) == Books(Kinds(log'), Pgis(log'), Lens(log'), ends[t..], begin')
    ensures b.Handed(nr) == Lengths(sub)
  {
    hide Kinds, Pgis, Lens, BeginAfter, Greatest, Lengths;
    var n := ends[t] - ends[0];
    KindsSlice(log, n);
    PgisSlice(log, n);
    LensSlice(log, n);
  }

  /** Every run from a new log: as long as the log can do what comes next, the files are what was written, the disk
      is what the files were at the last seal that has been flushed, and which writes, seals and flushes those are
      follows from the operations alone.  A run ends early only at an operation that CanDo rules out in the log and
      Fits in the trace; so a run whose operations all fit goes through. */
  method Run(onDisk: Image, ops: seq<Op>) returns (log: Log, done: nat, handed: seq<map<Key, int>>)
    ensures done <= |ops| && log.Valid() && handed == TraceOf(ops[..done]).handed
    ensures var events := TraceOf(ops[..done]).events;
            log.file == FilesAfter(onDisk, events) && Durable(log.disk, onDisk, events)
    ensures Agree(log, onDisk, TraceOf(ops[..done])) && fresh(log) && fresh(log.entries) && fresh(log.sorter)
    ensures done < |ops| ==>
              var t := TraceOf(ops[..done]); !CanDo(log, ops[done], t.waiting) && !Fits(t, ops[done])
    ensures Modest(ops) ==> done == |ops|
  {
    hide Log.Valid, Durable, FilesAfter, SealsOf, FlushedOf, Patched, KeyOf, ImagePage, Kinds, CanDo, Step,
         TraceOf, Agree, Fits, Modest;
    log := new Log(onDisk);
    NothingYet(log, onDisk);
    var waiting: Option<Event> := None;
    done, handed := 0, [];
    ghost var t := NOTHING;
    while done < |ops| && CanDo(log, ops[done], waiting)
      invariant done <= |ops| && t == TraceOf(ops[..done]) && waiting == t.waiting && Agree(log, onDisk, t)
      invariant fresh(log) && fresh(log.entries) && fresh(log.sorter) && handed == t.handed
      decreases |ops| - done
    {
      ghost var t' := Step(t, ops[done]);
      NextTrace(ops, done);
      if !ops[done].Flush? {
        OnlyFlushHands(t, ops[done]);
      }
      match ops[done] {
        case Write(_, _, _, _) => waiting := DoWrite(log, ops[done], t, onDisk);
        case Create(ino) =>
          StartCreate(log, onDisk, t, ino);
          waiting := Some(Made(ino));
        case Round => waiting := DoRound(log, waiting, t, onDisk);
        case Seal => DoSeal(log, t, onDisk);
        case Flush(nr) =>
          var more := DoFlush(log, nr, t, onDisk);
          handed := handed + more;
        case Reclaim(key) => DoReclaim(log, key, t, onDisk);
      }
      t, done := t', done + 1;
    }
    if done < |ops| {
      FitsCanDo(log, onDisk, t, ops[done]);
      if Modest(ops) {
        ModestFits(ops, done);
      }
    }
    AgreeFacts(log, onDisk, t);
  }

  lemma {:induction false} OnlyFlushHands(t: Trace, op: Op)
    requires !op.Flush?
    ensures Step(t, op).handed == t.handed
  {
  }

  lemma {:induction false} NextTrace(ops: seq<Op>, k: nat)
    requires k < |ops|
    ensures TraceOf(ops[..k + 1]) == Step(TraceOf(ops[..k]), ops[k])
  {
    assert ops[..k + 1][..k] == ops[..k];
  }

  lemma {:induction false} AgreeFacts(log: Log, start: Image, t: Trace)
    requires Agree(log, start, t)
    ensures log.Valid() && log.file == FilesAfter(start, t.events) && Durable(log.disk, start, t.events)
  {
  }

  lemma {:induction false} StartCreate(log: Log, start: Image, t: Trace, ino: u64)
    requires Agree(log, start, t) && CanDo(log, Create(ino), t.waiting)
    ensures Agree(log, start, Step(t, Create(ino))) && Step(t, Create(ino)).waiting == Some(Made(ino))
  {
  }

  method DoReclaim(log: Log, key: Key, ghost t: Trace, ghost start: Image)
    requires Agree(log, start, t)
    modifies log`cache
    ensures Agree(log, start, Step(t, Reclaim(key))) && Step(t, Reclaim(key)).waiting == t.waiting
  {
    hide Log.Valid, Durable, FilesAfter, SealsOf, FlushedOf, Patched, KeyOf, ImagePage, Kinds, Pgis, Lens;
    var ok := log.Reclaim(key);
  }

  lemma {:induction false} NothingYet(log: Log, start: Image)
    requires log.Valid() && log.disk == log.file == start && log.images == [] && log.waiting.None?
    requires log.log == [] && log.ends == [0] && log.begin == 0
    ensures Agree(log, start, NOTHING) && TraceOf([]) == NOTHING
  {
    hide Log.Valid;
  }

  // ---------- runs that fit ----------

  /** What the operations themselves must be like: one waits at a time, files of less than 2^23 pages, at most 35
      entries in a flush. */
  predicate Posed(t: Trace, op: Op) {
    match op
    case Write(ino, index, offset, data) =>
      t.waiting.None? && ino != INVAL_INO && index < 0x80_0000 && offset + |data| <= 4096
    case Create(ino) => t.waiting.None? && ino != INVAL_INO
    case Flush(nr) => t.books.Load(nr) <= 35
    case _ => true
  }

  /** Up to 254 of them. */
  predicate Modest(ops: seq<Op>) {
    |ops| <= 254 && forall k | 0 <= k < |ops| :: Posed(TraceOf(ops[..k]), ops[k])
  }

  ghost predicate InSequence(ends: seq<nat>) {
    forall i, j | 0 <= i <= j < |ends| :: ends[i] <= ends[j]
  }

  lemma {:induction false} Later(ends: seq<nat>, t: nat)
    requires InSequence(ends) && t < |ends|
    ensures ends[0] <= ends[t] <= ends[|ends| - 1] && InSequence(ends[t..])
  {
  }

  lemma {:induction false} OneLater(ends: seq<nat>, end: nat)
    requires InSequence(ends) && |ends| > 0 && ends[|ends| - 1] <= end
    ensures InSequence(ends + [end])
  {
  }

  predicate LowKey(pgi: int, n: nat) { 0 <= pgi < 0x8000_0000 && pgi % 256 <= n }

  /** At most n entries so far, of low pages and at most n versions; the seals in order. */
  ghost predicate Mild(t: Trace, n: nat) {
    var b := t.books;
    && b.Ok() && b.ends[0] + |b.entries| <= n
    && AllLow(b.pgis, n)
    && InSequence(b.ends) && LowKey(t.pgi, n + 1) && (t.waiting.Some? ==> !t.waiting.value.Flushed?)
  }

  ghost predicate AllLow(pgis: seq<int>, n: nat) {
    forall k | 0 <= k < |pgis| :: LowKey(pgis[k], n)
  }

  lemma {:induction false} AllLower(pgis: seq<int>, n: nat, pgi: int, k: nat)
    requires AllLow(pgis, n) && LowKey(pgi, n + 1) && k <= |pgis|
    ensures AllLow(pgis, n + 1) && AllLow(pgis + [pgi], n + 1) && AllLow(pgis[k..], n + 1)
    ensures LowKey(pgi, n + 2) && LowKey(0, n + 1)
  {
    hide LowKey;
    forall i | 0 <= i < |pgis|
      ensures LowKey(pgis[i], n + 1)
    {
      LowKeys(pgis[i], n);
    }
    LowKeys(pgi, n);
    LowKeys(0, n + 1);
  }

  lemma {:induction false} MildBooked(t: Trace, e: Event, n: nat)
    requires Mild(t, n) && n < 254 && (e.Flushed? ==> e.count < |t.books.ends|)
    ensures Mild(t.Then(e), n + 1) && Mild(t, n + 1)
  {
    hide LowKey, BeginAfter, InSequence, AllLow;
    var b := t.books;
    AllLower(b.pgis, n, t.pgi, 0);
    LowKeys(0, n);
    AllLower(b.pgis, n, 0, 0);
    if e.Flushed? {
      Later(b.ends, e.count);
      AllLower(b.pgis, n, t.pgi, b.ends[e.count] - b.ends[0]);
    } else if e.Sealed? {
      OneLater(b.ends, b.ends[0] + |b.entries|);
    }
  }

  lemma {:induction false} LowKeys(pgi: int, n: nat)
    ensures LowKey(pgi, n) ==> LowKey(pgi, n + 1)
    ensures LowKey(pgi, n + 1) ==> LowKey(pgi, n + 2)
    ensures LowKey(0, n)
    ensures LowKey(pgi, n) && n < 255 ==> LowKey(pgi + 1, n + 1)
  {
  }

  lemma {:induction false} LastLow(kinds: seq<Kind>, pgis: seq<int>, key: Key, n: nat)
    requires |kinds| == |pgis| && key.index < 0x80_0000 && AllLow(pgis, n)
    ensures LowKey(LastPgi(kinds, pgis, key), n)
  {
    if kinds == [] {
      LowPage(key.index, n);
    } else {
      LastLow(kinds[..|kinds| - 1], pgis[..|kinds| - 1], key, n);
    }
  }

  lemma {:induction false} LowPage(index: int, n: nat)
    requires 0 <= index < 0x80_0000
    ensures LowKey(index * 256, n)
  {
  }

  lemma {:induction false} MildStep(t: Trace, op: Op, n: nat)
    requires Mild(t, n) && n < 254 && Posed(t, op)
    ensures Mild(Step(t, op), n + 1) && Fits(t, op)
  {
    match op
    case Write(_, _, _, _) =>
      hide *;
      MildWrite(t, op, n);
    case Create(ino) =>
      hide Mild, LowKey;
      LowKeys(0, n);
      MildWaits(t, Some(Made(ino)), 0, n);
    case Round =>
      hide *;
      MildRound(t, n);
    case Flush(nr) =>
      hide *;
      MildFlush(t, nr, n);
    case _ =>
      hide Mild, Booked;
      MildBooked(t, Sealed, n);
  }

  lemma {:induction false} MildWrite(t: Trace, op: Op, n: nat)
    requires Mild(t, n) && n < 254 && Posed(t, op) && op.Write?
    ensures Mild(Step(t, op), n + 1) && Fits(t, op)
  {
    hide LowKey, AllLow, Booked, InSequence, Books.Active;
    var b, e := t.books, Wrote(Key(op.ino, op.index), op.offset, op.data);
    var last := LastPgi(b.entries, b.pgis, e.key);
    LastLow(b.entries, b.pgis, e.key, n);
    LowKeys(last, n);
    NotLast(last, n);
    MildBooked(t, e, n);
    MildWaits(t, Some(e), last + 1, n);
  }

  lemma {:induction false} MildRound(t: Trace, n: nat)
    requires Mild(t, n) && n < 254
    ensures Mild(Step(t, Round), n + 1) && Fits(t, Round)
  {
    hide LowKey, AllLow, Booked, InSequence, Unsigned;
    MildBooked(t, Sealed, n);
    if t.waiting.Some? {
      MildBooked(t, t.waiting.value, n);
    }
    EarlyNumber(t.books.ends[0] + |t.books.entries|);
  }

  lemma {:induction false} MildFlush(t: Trace, nr: u32, n: nat)
    requires Mild(t, n) && n < 254 && Posed(t, Flush(nr))
    ensures Mild(Step(t, Flush(nr)), n + 1) && Fits(t, Flush(nr))
  {
    hide LowKey, AllLow, Booked, InSequence, Sorts;
    MildBooked(t, Flushed(t.books.Count(nr)), n);
    MildSorts(t, nr, n);
  }

  lemma {:induction false} MildWaits(t: Trace, waiting: Option<Event>, pgi: int, n: nat)
    requires Mild(t, n) && LowKey(pgi, n + 1) && (waiting.Some? ==> !waiting.value.Flushed?)
    ensures Mild(t.(waiting := waiting, pgi := pgi), n + 1)
  {
    hide LowKey;
    AllLower(t.books.pgis, n, pgi, 0);
  }

  lemma {:induction false} NotLast(pgi: int, n: nat)
    requires LowKey(pgi, n) && n < 255
    ensures (pgi + 1) % 256 != 0
  {
  }

  lemma {:induction false} EarlyNumber(x: nat)
    requires x <= 254
    ensures Unsigned(x) != L_NULL
  {
  }

  lemma {:induction false} MildSorts(t: Trace, nr: u32, n: nat)
    requires Mild(t, n) && n < 254 && t.books.Load(nr) <= 35
    ensures Sorts(t.books, nr)
  {
    hide LowKey, Unsigned, LogSort.Clear, Near;
    var b := t.books;
    Later(b.ends, b.Count(nr));
    EarlyIsClear(b.ends[0], b.ends[b.Count(nr)]);
    forall i, j | 0 <= i < b.Load(nr) && 0 <= j < b.Load(nr)
      ensures Near(b.entries[i].Ino(), b.pgis[i], b.entries[j].Ino(), b.pgis[j])
    {
      LowNear(b.entries[i].Ino(), b.pgis[i], b.entries[j].Ino(), b.pgis[j], n);
    }
  }

  lemma {:induction false} LowNear(ino: int, pgi: int, ino': int, pgi': int, n: nat)
    requires LowKey(pgi, n) && LowKey(pgi', n)
    ensures Near(ino, pgi, ino', pgi')
  {
  }

  /** Such a run fits all along, so Run takes it to its end. */
  lemma {:induction false} ModestFits(ops: seq<Op>, k: nat)
    requires Modest(ops) && k <= |ops|
    ensures Mild(TraceOf(ops[..k]), k) && (k < |ops| ==> Fits(TraceOf(ops[..k]), ops[k]))
  {
    hide TraceOf, Mild, Fits, Step, Posed;
    if k == 0 {
      NothingMild();
      assert ops[..0] == [];
    } else {
      ModestFits(ops, k - 1);
      NextTrace(ops, k - 1);
      MildStep(TraceOf(ops[..k - 1]), ops[k - 1], k - 1);
    }
    if k < |ops| {
      MildStep(TraceOf(ops[..k]), ops[k], k);
    }
  }

  lemma {:induction false} NothingMild()
    ensures TraceOf([]) == NOTHING && Mild(NOTHING, 0)
  {
  }

  // ---------- a write reaches the disk ----------

  /** The books know the seals still to be flushed. */
  ghost predicate Counted(t: Trace, start: Image) {
    && t.books.Ok() && |SealsOf(start, t.events)| == FlushedOf(t.events) + |t.books.ends| - 1
    && InSequence(t.books.ends)
  }

  lemma {:induction false} CountedThen(t: Trace, start: Image, e: Event)
    requires Counted(t, start) && (e.Flushed? ==> e.count < |t.books.ends|)
    ensures Counted(t.Then(e), start)
  {
    hide SealsOf, FlushedOf, FilesAfter, BeginAfter;
    OneMore(start, t.events, e);
    if e.Flushed? {
      Later(t.books.ends, e.count);
    } else if e.Sealed? {
      OneLater(t.books.ends, t.books.ends[0] + |t.books.entries|);
    }
  }

  lemma {:induction false} CountedStep(t: Trace, start: Image, op: Op)
    requires Counted(t, start) && (t.waiting.Some? ==> !t.waiting.value.Flushed?)
    ensures Counted(Step(t, op), start) && (Step(t, op).waiting.Some? ==> !Step(t, op).waiting.value.Flushed?)
  {
    hide SealsOf, FlushedOf, Booked, LastPgi;
    match op
    case Write(ino, index, offset, data) => CountedThen(t, start, Wrote(Key(ino, index), offset, data));
    case Create(ino) =>
    case Round =>
      CountedThen(t, start, Sealed);
      if t.waiting.Some? {
        CountedThen(t, start, t.waiting.value);
      }
    case Seal => CountedThen(t, start, Sealed);
    case Flush(nr) => CountedThen(t, start, Flushed(t.books.Count(nr)));
    case Reclaim(key) =>
  }

  lemma {:induction false} TraceCounted(ops: seq<Op>, start: Image)
    ensures var t := TraceOf(ops); Counted(t, start) && (t.waiting.Some? ==> !t.waiting.value.Flushed?)
  {
    hide Step;
    if ops != [] {
      hide Counted;
      TraceCounted(ops[..|ops| - 1], start);
      CountedStep(TraceOf(ops[..|ops| - 1]), start, ops[|ops| - 1]);
    }
  }

  lemma {:induction false} TraceMore(ops: seq<Op>, op: Op)
    ensures TraceOf(ops + [op]) == Step(TraceOf(ops), op)
  {
    assert (ops + [op])[..|ops|] == ops;
  }

  /** The write itself, and its round: the files have it, and there is something to seal. */
  lemma {:induction false} Written(t: Trace, start: Image, op: Op)
    requires Counted(t, start) && op.Write? && op.offset + |op.data| <= 4096 && t.waiting.None? && !t.books.Full()
    ensures var t', files := Step(Step(t, op), Round), FilesAfter(start, t.events);
            var key := Key(op.ino, op.index);
            && t'.waiting.None? && t'.books.Active() != [] && Counted(t', start)
            && FilesAfter(start, t'.events) == files[key := Patched(ImagePage(files, key), op.offset, op.data)]
  {
    hide FilesAfter, Patched, ImagePage, Counted, LastPgi;
    var e := Wrote(Key(op.ino, op.index), op.offset, op.data);
    OneMore(start, t.events, e);
    CountedStep(t, start, op);
    CountedStep(Step(t, op), start, Round);
    CountedOk(t, start);
  }

  lemma {:induction false} CountedOk(t: Trace, start: Image)
    requires Counted(t, start)
    ensures t.books.Ok()
  {
  }

  /** A seal and a flush of all seals: the files are on the disk. */
  lemma {:induction false} AllFlushed(t: Trace, start: Image, nr: u32, disk: Image)
    requires Counted(t, start) && t.books.Active() != [] && |t.books.ends| <= nr
    requires Durable(disk, start, Step(Step(t, Seal), Flush(nr)).events)
    ensures disk == FilesAfter(start, t.events)
  {
    hide FilesAfter, SealsOf, FlushedOf, Step;
    SealAndFlush(t, nr);
    OneMore(start, t.events, Sealed);
    OneMore(start, t.events + [Sealed], Flushed(|t.books.ends|));
  }

  lemma {:induction false} SealAndFlush(t: Trace, nr: u32)
    requires t.books.Ok() && t.books.Active() != [] && |t.books.ends| <= nr
    ensures Step(Step(t, Seal), Flush(nr)).events == t.events + [Sealed] + [Flushed(|t.books.ends|)]
  {
    hide BeginAfter;
  }

  /** After any operations, if nobody waits and the log is not full: a write, its round, a seal and a flush of all
      seals bring the files with the write to the disk. */
  lemma {:induction false} WriteReachesDisk(start: Image, disk: Image, ops: seq<Op>, op: Op, nr: u32)
    requires op.Write? && op.offset + |op.data| <= 4096 && TraceOf(ops).waiting.None? && !TraceOf(ops).books.Full()
    requires |TraceOf(ops).books.ends| <= nr
    ensures var files, key := FilesAfter(start, TraceOf(ops).events), Key(op.ino, op.index);
            Durable(disk, start, TraceOf(ops + [op] + [Round] + [Seal] + [Flush(nr)]).events) ==>
              disk == files[key := Patched(ImagePage(files, key), op.offset, op.data)]
  {
    hide TraceOf, Step, Durable, FilesAfter, Counted, Patched, ImagePage;
    var t := TraceOf(ops);
    TraceCounted(ops, start);
    TraceMore(ops, op);
    TraceMore(ops + [op], Round);
    TraceMore(ops + [op] + [Round], Seal);
    TraceMore(ops + [op] + [Round] + [Seal], Flush(nr));
    Written(t, start, op);
    SealsStay(t, op);
    if Durable(disk, start, TraceOf(ops + [op] + [Round] + [Seal] + [Flush(nr)]).events) {
      AllFlushed(Step(Step(t, op), Round), start, nr, disk);
    }
  }

  lemma {:induction false} SealsStay(t: Trace, op: Op)
    requires op.Write? && t.waiting.None? && !t.books.Full()
    ensures Step(Step(t, op), Round).books.ends == t.books.ends
  {
    hide LastPgi;
  }
}
