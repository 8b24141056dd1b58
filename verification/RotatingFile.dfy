/** The rotating file sink: the newest messages in base.txt, older ones in base.1.txt, base.2.txt and so on. */
module RotatingFiles {
  import opened FileNames

  /** A formatted message; its length is its size in bytes. */
  type Message = string

  /** The files there are. The content of a file is kept message by message. */
  type Disk = map<string, seq<Message>>

  datatype Maybe<T> = Absent | Present(value: T)

  function SizeOf(content: seq<Message>): nat {
    if content == [] then 0 else SizeOf(content[..|content| - 1]) + |content[|content| - 1]|
  }

  /** The file with the given index. */
  function At(disk: Disk, base: string, i: nat): Maybe<seq<Message>> {
    var name := CalcFilename(base, i);
    if name in disk then Present(disk[name]) else Absent
  }

  /** Names of other files. */
  ghost predicate Foreign(base: string, maxFiles: nat, name: string) {
    forall i :: 0 <= i <= maxFiles ==> name != CalcFilename(base, i)
  }

  ghost predicate SameForeign(was: Disk, now: Disk, base: string, maxFiles: nat) {
    forall name :: Foreign(base, maxFiles, name) ==> 
      (name in was <==> name in now) && (name in was ==> was[name] == now[name])
  }

  lemma ForeignSelf(disk: Disk, base: string, maxFiles: nat)
    ensures SameForeign(disk, disk, base, maxFiles)
  {
  }

  lemma ForeignBoth(a: Disk, b: Disk, c: Disk, base: string, maxFiles: nat)
    requires SameForeign(a, b, base, maxFiles) && SameForeign(b, c, base, maxFiles)
    ensures SameForeign(a, c, base, maxFiles)
  {
    hide Foreign;
  }

  /** What a file is after a rotation: what the file before it was. The last index keeps its file if nothing comes. */
  function Shifted(was: Disk, base: string, maxFiles: nat, i: nat): Maybe<seq<Message>> {
    if i == 0 then Present([])
    else if At(was, base, i - 1).Present? then At(was, base, i - 1)
    else if i == maxFiles then At(was, base, i)
    else Absent
  }

  /** One round of the rotation loop: the file goes one index up, and replaces what is there. */
  function Moved(disk: Disk, base: string, i: nat): Disk
    requires i > 0 && CalcFilename(base, i - 1) in disk
  {
    var src, target := CalcFilename(base, i - 1), CalcFilename(base, i);
    (disk - {target} - {src})[target := disk[src]]
  }

  lemma MovedAt(disk: Disk, base: string, i: nat, j: nat)
    requires i > 0 && CalcFilename(base, i - 1) in disk
    ensures At(Moved(disk, base, i), base, j) ==
            if j == i then At(disk, base, i - 1) else if j == i - 1 then Absent else At(disk, base, j)
  {
    if CalcFilename(base, j) == CalcFilename(base, i) {
      NamesDiffer(base, j, i);
    }
    if CalcFilename(base, j) == CalcFilename(base, i - 1) {
      NamesDiffer(base, j, i - 1);
    }
    if CalcFilename(base, i) == CalcFilename(base, i - 1) {
      NamesDiffer(base, i, i - 1);
    }
  }

  /** Halfway down: indices from i on are shifted, the ones below i untouched. */
  ghost predicate Halfway(was: Disk, now: Disk, base: string, maxFiles: nat, i: nat) {
    && i <= maxFiles
    && (forall j :: i < j <= maxFiles ==> At(now, base, j) == Shifted(was, base, maxFiles, j))
    && (forall j :: 0 <= j < i ==> At(now, base, j) == At(was, base, j))
    && At(now, base, i) == (if i == maxFiles then At(was, base, i) else Absent)
    && SameForeign(was, now, base, maxFiles)
  }

  lemma RotateStep(was: Disk, now: Disk, base: string, maxFiles: nat, i: nat)
    requires Halfway(was, now, base, maxFiles, i) && i > 0
    ensures CalcFilename(base, i - 1) in now ==> Halfway(was, Moved(now, base, i), base, maxFiles, i - 1)
    ensures CalcFilename(base, i - 1) !in now ==> Halfway(was, now, base, maxFiles, i - 1)
  {
    hide CalcFilename;
    assert At(now, base, i - 1) == At(was, base, i - 1);
    if CalcFilename(base, i - 1) in now {
      var next := Moved(now, base, i);
      forall j | i - 1 < j <= maxFiles
        ensures At(next, base, j) == Shifted(was, base, maxFiles, j)
      {
        MovedAt(now, base, i, j);
      }
      forall j | 0 <= j < i - 1
        ensures At(next, base, j) == At(was, base, j)
      {
        MovedAt(now, base, i, j);
      }
      MovedAt(now, base, i, i - 1);
    }
  }

  lemma TruncatedAt(disk: Disk, base: string, j: nat)
    ensures At(disk[base := []], base, j) == if j == 0 then Present([]) else At(disk, base, j)
  {
    if CalcFilename(base, j) == CalcFilename(base, 0) {
      NamesDiffer(base, j, 0);
    }
  }

  lemma RotateEnds(was: Disk, now: Disk, base: string, maxFiles: nat)
    requires Halfway(was, now, base, maxFiles, 0)
    ensures forall j :: 0 <= j <= maxFiles ==> At(now[base := []], base, j) == Shifted(was, base, maxFiles, j)
    ensures SameForeign(was, now[base := []], base, maxFiles)
  {
    forall j | 0 <= j <= maxFiles
      ensures At(now[base := []], base, j) == Shifted(was, base, maxFiles, j)
    {
      TruncatedAt(now, base, j);
    }
    assert CalcFilename(base, 0) == base;
  }

  /** All messages in the files below index k, oldest first. */
  function Stored(disk: Disk, base: string, k: nat): seq<Message> {
    if k == 0 then []
    else (match At(disk, base, k - 1) case Present(s) => s case Absent => []) + Stored(disk, base, k - 1)
  }

  /** The files that exist are those with an index below k. */
  ghost predicate GapFree(disk: Disk, base: string, maxFiles: nat, k: nat) {
    && k <= maxFiles + 1
    && forall i :: 0 <= i <= maxFiles ==> (At(disk, base, i).Present? <==> i < k)
  }

  /** A file stays within the limit, unless one message alone is over it. */
  predicate Fits(content: seq<Message>, maxSize: nat) {
    SizeOf(content) <= maxSize || SizeOf(content[..|content| - 1]) == 0
  }

  ghost predicate AllFit(disk: Disk, base: string, maxFiles: nat, maxSize: nat) {
    forall i :: 0 <= i <= maxFiles && At(disk, base, i).Present? ==> Fits(At(disk, base, i).value, maxSize)
  }

  lemma {:induction false} StoredShifts(was: Disk, now: Disk, base: string, maxFiles: nat, k: nat)
    requires k <= maxFiles
    requires forall j :: 0 <= j <= k ==> At(now, base, j) == Shifted(was, base, maxFiles, j)
    requires forall j :: 0 <= j < k ==> At(was, base, j).Present?
    ensures Stored(now, base, k + 1) == Stored(was, base, k)
  {
    hide CalcFilename;
    if k == 0 {
      assert At(now, base, 0) == Present([]);
      assert Stored(now, base, 0) == [];
    } else {
      StoredShifts(was, now, base, maxFiles, k - 1);
      assert At(now, base, k) == At(was, base, k - 1);
    }
  }

  lemma {:induction false} StoredGrows(disk: Disk, base: string, k: nat, msg: Message)
    requires k > 0 && base in disk
    ensures Stored(disk[base := disk[base] + [msg]], base, k) == Stored(disk, base, k) + [msg]
  {
    var now := disk[base := disk[base] + [msg]];
    WrittenAt(disk, base, disk[base] + [msg], k - 1);
    if k == 1 {
      assert Stored(now, base, 0) == [] == Stored(disk, base, 0);
    } else {
      StoredGrows(disk, base, k - 1, msg);
    }
  }

  lemma WrittenAt(disk: Disk, base: string, content: seq<Message>, j: nat)
    ensures At(disk[base := content], base, j) == if j == 0 then Present(content) else At(disk, base, j)
  {
    if CalcFilename(base, j) == CalcFilename(base, 0) {
      NamesDiffer(base, j, 0);
    }
  }

  /** k files exist without a gap; read from the oldest to the newest they are the end of all that was written. */
  ghost predicate Tidy(disk: Disk, base: string, maxFiles: nat, maxSize: nat, k: nat,
                       history: seq<Message>, lost: seq<Message>) {
    && 1 <= k && GapFree(disk, base, maxFiles, k)
    && history == lost + Stored(disk, base, k)
    && AllFit(disk, base, maxFiles, maxSize)
  }

  /** A rotation shifts the files; only when all indices are in use it gives up the oldest file. */
  lemma RotateTidy(was: Disk, now: Disk, base: string, maxFiles: nat, maxSize: nat, k: nat,
                   history: seq<Message>, lost: seq<Message>)
    requires Tidy(was, base, maxFiles, maxSize, k, history, lost)
    requires forall j :: 0 <= j <= maxFiles ==> At(now, base, j) == Shifted(was, base, maxFiles, j)
    ensures k <= maxFiles ==> Tidy(now, base, maxFiles, maxSize, k + 1, history, lost)
    ensures k == maxFiles + 1 ==> At(was, base, maxFiles).Present? &&
                                  Tidy(now, base, maxFiles, maxSize, k, history, lost + At(was, base, maxFiles).value)
  {
    hide At, Stored;
    ShiftedFits(was, now, base, maxFiles, maxSize);
    if k <= maxFiles {
      StoredShifts(was, now, base, maxFiles, k);
      ShiftedGapFree(was, now, base, maxFiles, k);
    } else {
      StoredShifts(was, now, base, maxFiles, maxFiles);
      StoredStep(was, base, maxFiles);
      ShiftedGapFree(was, now, base, maxFiles, k);
      assert lost + (At(was, base, maxFiles).value + Stored(was, base, maxFiles))
          == lost + At(was, base, maxFiles).value + Stored(was, base, maxFiles);
    }
  }

  lemma StoredStep(disk: Disk, base: string, k: nat)
    requires At(disk, base, k).Present?
    ensures Stored(disk, base, k + 1) == At(disk, base, k).value + Stored(disk, base, k)
  {
  }

  lemma ShiftedGapFree(was: Disk, now: Disk, base: string, maxFiles: nat, k: nat)
    requires GapFree(was, base, maxFiles, k) && k >= 1
    requires forall j :: 0 <= j <= maxFiles ==> At(now, base, j) == Shifted(was, base, maxFiles, j)
    ensures GapFree(now, base, maxFiles, if k <= maxFiles then k + 1 else k)
  {
    hide At;
    forall i | 0 <= i <= maxFiles
      ensures At(now, base, i).Present? <==> i < if k <= maxFiles then k + 1 else k
    {
      if i > 0 {
        assert At(was, base, i - 1).Present? <==> i - 1 < k;
      }
    }
  }

  lemma ShiftedFits(was: Disk, now: Disk, base: string, maxFiles: nat, maxSize: nat)
    requires AllFit(was, base, maxFiles, maxSize)
    requires forall j :: 0 <= j <= maxFiles ==> At(now, base, j) == Shifted(was, base, maxFiles, j)
    ensures AllFit(now, base, maxFiles, maxSize)
  {
    hide At;
    forall i | 0 <= i <= maxFiles && At(now, base, i).Present?
      ensures Fits(At(now, base, i).value, maxSize)
    {
      if i == 0 {
        assert At(now, base, 0) == Present([]);
      } else if At(was, base, i - 1).Present? {
        assert At(now, base, i) == At(was, base, i - 1);
      } else {
        assert At(now, base, i) == At(was, base, i);
      }
    }
  }

  lemma SizeSnoc(content: seq<Message>, msg: Message)
    ensures SizeOf(content + [msg]) == SizeOf(content) + |msg|
    ensures (content + [msg])[..|content|] == content
  {
    assert (content + [msg])[..|content|] == content;
  }

  /** Writing to a file with room for the message, or to an empty one. */
  lemma WriteTidy(disk: Disk, base: string, maxFiles: nat, maxSize: nat, k: nat,
                  history: seq<Message>, lost: seq<Message>, msg: Message)
    requires Tidy(disk, base, maxFiles, maxSize, k, history, lost) && base in disk
    requires SizeOf(disk[base]) + |msg| <= maxSize || SizeOf(disk[base]) == 0
    ensures Tidy(disk[base := disk[base] + [msg]], base, maxFiles, maxSize, k, history + [msg], lost)
  {
    hide At, Stored, SizeOf;
    var content, now := disk[base] + [msg], disk[base := disk[base] + [msg]];
    StoredGrows(disk, base, k, msg);
    SizeSnoc(disk[base], msg);
    forall i | 0 <= i <= maxFiles
      ensures At(now, base, i) == if i == 0 then Present(content) else At(disk, base, i)
    {
      WrittenAt(disk, base, content, i);
    }
    assert At(disk, base, 0).Present?;
  }

  datatype Created = Failed(reason: string) | Made(sink: RotatingFileSink)

  class RotatingFileSink {
    const baseFilename: string
    const maxSize: nat
    const maxFiles: nat
    var currentSize: nat
    var disk: Disk
    /** All messages written, and those of them whose files were given up; the number of files. */
    ghost var history: seq<Message>
    ghost var lost: seq<Message>
    ghost var files: nat

    /** The file of index 0 is open and its size known. */
    ghost predicate Open()
      reads this
    {
      maxSize > 0 && baseFilename in disk && currentSize == SizeOf(disk[baseFilename])
    }

    ghost predicate Keeps()
      reads this
    {
      Tidy(disk, baseFilename, maxFiles, maxSize, files, history, lost)
    }

    constructor (baseFilename: string, maxSize: nat, maxFiles: nat, disk: Disk, ghost files: nat)
      requires maxSize > 0
      ensures Open() && this.baseFilename == baseFilename && this.maxSize == maxSize && this.maxFiles == maxFiles
      ensures this.disk == if baseFilename in disk then disk else disk[baseFilename := []]
      ensures lost == [] && this.files == (if files == 0 then 1 else files)
      ensures history == Stored(disk, baseFilename, files)
    {
      this.baseFilename, this.maxSize, this.maxFiles := baseFilename, maxSize, maxFiles;
      this.disk := if baseFilename in disk then disk else disk[baseFilename := []];
      this.history, this.lost, this.files := Stored(disk, baseFilename, files), [], if files == 0 then 1 else files;
      new;
      currentSize := SizeOf(this.disk[baseFilename]);
    }

    /** A message goes to the newest file; if it would grow over the limit, the files are rotated first. */
    method SinkIt(msg: Message)
      requires Open()
      modifies this
      ensures Open() && history == old(history) + [msg]
      ensures var rotates := old(currentSize) + |msg| > maxSize && old(currentSize) > 0;
        && disk[baseFilename] == (if rotates then [] else old(disk)[baseFilename]) + [msg]
        && (forall j :: 0 < j <= maxFiles ==>
              At(disk, baseFilename, j) ==
              if rotates then Shifted(old(disk), baseFilename, maxFiles, j) else At(old(disk), baseFilename, j))
        && (!rotates || old(files) <= maxFiles ==> lost == old(lost))
        && old(files) <= files
      ensures SameForeign(old(disk), disk, baseFilename, maxFiles)
      ensures old(Keeps()) ==> Keeps()
    {
      hide At, Stored, SizeOf, Tidy, SameForeign;
      var newSize := currentSize + |msg|;
      if newSize > maxSize {
        if SizeOf(disk[baseFilename]) > 0 {
          Rotate();
          newSize := |msg|;
        }
      }
      ghost var rotated := disk;
      ForeignSelf(disk, baseFilename, maxFiles);
      Write(msg);
      ForeignBoth(old(disk), rotated, disk, baseFilename, maxFiles);
      currentSize := newSize;
    }

    /** The file helper's append. */
    method Write(msg: Message)
      requires baseFilename in disk
      modifies this`disk, this`history
      ensures disk == old(disk)[baseFilename := old(disk)[baseFilename] + [msg]]
      ensures SizeOf(disk[baseFilename]) == SizeOf(old(disk)[baseFilename]) + |msg|
      ensures forall j :: 0 < j <= maxFiles ==> At(disk, baseFilename, j) == At(old(disk), baseFilename, j)
      ensures SameForeign(old(disk), disk, baseFilename, maxFiles)
      ensures history == old(history) + [msg]
      ensures old(Keeps())
        && (SizeOf(old(disk)[baseFilename]) + |msg| <= maxSize || SizeOf(old(disk)[baseFilename]) == 0)
        ==> Keeps()
    {
      hide At, Stored, SizeOf, Tidy;
      SizeSnoc(disk[baseFilename], msg);
      if Keeps() && (SizeOf(disk[baseFilename]) + |msg| <= maxSize || SizeOf(disk[baseFilename]) == 0) {
        WriteTidy(disk, baseFilename, maxFiles, maxSize, files, history, lost, msg);
      }
      forall j | 0 < j <= maxFiles
        ensures At(disk[baseFilename := disk[baseFilename] + [msg]], baseFilename, j) == At(disk, baseFilename, j)
      {
        WrittenAt(disk, baseFilename, disk[baseFilename] + [msg], j);
      }
      assert CalcFilename(baseFilename, 0) == baseFilename;
      disk := disk[baseFilename := disk[baseFilename] + [msg]];
      history := history + [msg];
    }

    /** Every file goes one index up, the last one is given up, and the newest file starts empty. */
    method Rotate()
      requires baseFilename in disk
      modifies this`disk, this`lost, this`files
      ensures baseFilename in disk && disk[baseFilename] == [] && SizeOf(disk[baseFilename]) == 0
      ensures forall j :: 0 <= j <= maxFiles ==>
        At(disk, baseFilename, j) == Shifted(old(disk), baseFilename, maxFiles, j)
      ensures SameForeign(old(disk), disk, baseFilename, maxFiles)
      ensures old(Keeps()) ==> Keeps()
      ensures old(files) <= maxFiles ==> lost == old(lost)
      ensures old(files) <= files
    {
      hide At, Stored, Tidy, Halfway;
      RotationStarts(disk, baseFilename, maxFiles);
      var i := maxFiles;
      while i > 0
        invariant Halfway(old(disk), disk, baseFilename, maxFiles, i)
        invariant history == old(history) && lost == old(lost) && files == old(files)
      {
        RotateStep(old(disk), disk, baseFilename, maxFiles, i);
        var src := CalcFilename(baseFilename, i - 1);
        if src in disk {
          var target := CalcFilename(baseFilename, i);
          RenameFile(src, target);
        }
        i := i - 1;
      }
      RotateEnds(old(disk), disk, baseFilename, maxFiles);
      disk := disk[baseFilename := []];
      ghost var dropped := if files > maxFiles && At(old(disk), baseFilename, maxFiles).Present?
                           then At(old(disk), baseFilename, maxFiles).value else [];
      if old(Keeps()) {
        RotateTidy(old(disk), disk, baseFilename, maxFiles, maxSize, files, history, lost);
        FilesBound(old(disk), baseFilename, maxFiles, maxSize, files, history, lost);
      }
      assert lost + [] == lost;
      lost := lost + dropped;
      files := if files <= maxFiles then files + 1 else files;
    }

    /** Removes the target if there is one, and gives its name to the source. */
    method RenameFile(src: string, target: string)
      requires src in disk
      modifies this`disk
      ensures disk == (old(disk) - {target} - {src})[target := old(disk)[src]]
    {
      var content := disk[src];
      disk := disk - {target};
      disk := disk - {src};
      disk := disk[target := content];
    }
  }

  lemma RotationStarts(disk: Disk, base: string, maxFiles: nat)
    ensures Halfway(disk, disk, base, maxFiles, maxFiles)
  {
  }

  lemma FilesBound(disk: Disk, base: string, maxFiles: nat, maxSize: nat, k: nat,
                   history: seq<Message>, lost: seq<Message>)
    requires Tidy(disk, base, maxFiles, maxSize, k, history, lost)
    ensures 1 <= k <= maxFiles + 1
  {
  }

  /** Opening the file of index 0 adds an empty file where there were none. */
  lemma OpeningIsTidy(disk: Disk, base: string, maxFiles: nat, maxSize: nat, k: nat)
    requires GapFree(disk, base, maxFiles, k) && AllFit(disk, base, maxFiles, maxSize)
    ensures var fopen := if base in disk then disk else disk[base := []];
      Tidy(fopen, base, maxFiles, maxSize, if k == 0 then 1 else k, Stored(disk, base, k), [])
  {
    assert CalcFilename(base, 0) == base;
    assert At(disk, base, 0).Present? <==> base in disk;
    if base !in disk {
      var fopen := disk[base := []];
      assert k == 0;
      forall i | 0 <= i <= maxFiles
        ensures At(fopen, base, i) == if i == 0 then Present([]) else At(disk, base, i)
      {
        WrittenAt(disk, base, [], i);
      }
      StoredStep(fopen, base, 0);
    }
  }

  /** The newest file is created if it is not there. */
  function Opening(disk: Disk, base: string): (o: Disk)
    ensures base in o
  {
    if base in disk then disk else disk[base := []]
  }

  /** The constructor's checks, and the rotation on open if it is asked for and the file has content. */
  method Create(disk: Disk, baseFilename: string, maxSize: nat, maxFiles: nat, rotateOnOpen: bool, ghost files: nat)
    returns (r: Created)
    ensures r.Failed? <==> maxSize == 0 || maxFiles > 200000
    ensures r.Made? ==> fresh(r.sink) && r.sink.Open() && (rotateOnOpen ==> r.sink.currentSize == 0)
    ensures r.Made? ==> r.sink.baseFilename == baseFilename && r.sink.maxSize == maxSize && r.sink.maxFiles == maxFiles
    ensures r.Made? && GapFree(disk, baseFilename, maxFiles, files) && AllFit(disk, baseFilename, maxFiles, maxSize) ==>
      r.sink.Keeps() && r.sink.history == Stored(disk, baseFilename, files)
    ensures r.Made? && (!rotateOnOpen || (if files == 0 then 1 else files) <= maxFiles) ==> r.sink.lost == []
    // which file each one becomes
    ensures r.Made? ==>
      var opening := Opening(disk, baseFilename);
      var rotates := rotateOnOpen && SizeOf(opening[baseFilename]) > 0;
      && (forall j :: 0 <= j <= maxFiles ==>
            At(r.sink.disk, baseFilename, j) ==
            if rotates then Shifted(opening, baseFilename, maxFiles, j) else At(opening, baseFilename, j))
      && SameForeign(opening, r.sink.disk, baseFilename, maxFiles)
  {
    hide At, Stored, Tidy, GapFree, AllFit, SizeOf, Shifted, SameForeign;
    if maxSize == 0 {
      return Failed("max_size arg cannot be zero");
    }
    if maxFiles > 200000 {
      return Failed("max_files arg cannot exceed 200000");
    }
    var sink := new RotatingFileSink(baseFilename, maxSize, maxFiles, disk, files);
    ForeignSelf(sink.disk, baseFilename, maxFiles);
    if GapFree(disk, baseFilename, maxFiles, files) && AllFit(disk, baseFilename, maxFiles, maxSize) {
      OpeningIsTidy(disk, baseFilename, maxFiles, maxSize, files);
    }
    if rotateOnOpen && sink.currentSize > 0 {
      sink.Rotate();
      sink.currentSize := 0;
    }
    r := Made(sink);
  }

  method LogAll(sink: RotatingFileSink, msgs: seq<Message>)
    requires sink.Open() && sink.Keeps() && sink.history == [] && sink.lost == []
    modifies sink
    ensures sink.Open() && sink.Keeps() && sink.history == msgs
    ensures sink.files <= sink.maxFiles ==> sink.lost == []
  {
    hide At, Stored, Tidy, SizeOf, SameForeign, Shifted;
    for n := 0 to |msgs|
      invariant sink.Open() && sink.Keeps() && sink.history == msgs[..n]
      invariant sink.files <= sink.maxFiles ==> sink.lost == []
    {
      sink.SinkIt(msgs[n]);
    }
    assert msgs[..|msgs|] == msgs;
  }

  /** All messages, from a disk without any of the files: the files hold the newest messages, and nothing else. */
  method Session(disk: Disk, baseFilename: string, maxSize: nat, maxFiles: nat, msgs: seq<Message>)
    returns (sink: RotatingFileSink)
    requires 0 < maxSize && maxFiles <= 200000
    requires forall i :: 0 <= i <= maxFiles ==> CalcFilename(baseFilename, i) !in disk
    ensures sink.baseFilename == baseFilename && sink.maxFiles == maxFiles
    ensures msgs == sink.lost + Stored(sink.disk, baseFilename, sink.files)
    ensures GapFree(sink.disk, baseFilename, maxFiles, sink.files)
    ensures AllFit(sink.disk, baseFilename, maxFiles, maxSize)
    ensures sink.files <= maxFiles ==> sink.lost == []
  {
    NoFilesYet(disk, baseFilename, maxFiles, maxSize);
    hide At, Stored, Tidy, GapFree, AllFit, SizeOf, CalcFilename;
    var r := Create(disk, baseFilename, maxSize, maxFiles, false, 0);
    sink := r.sink;
    LogAll(sink, msgs);
    TidyMeans(sink.disk, baseFilename, maxFiles, maxSize, sink.files, sink.history, sink.lost);
  }

  lemma NoFilesYet(disk: Disk, base: string, maxFiles: nat, maxSize: nat)
    requires forall i :: 0 <= i <= maxFiles ==> CalcFilename(base, i) !in disk
    ensures GapFree(disk, base, maxFiles, 0) && AllFit(disk, base, maxFiles, maxSize) && Stored(disk, base, 0) == []
  {
  }

  lemma TidyMeans(disk: Disk, base: string, maxFiles: nat, maxSize: nat, k: nat,
                  history: seq<Message>, lost: seq<Message>)
    requires Tidy(disk, base, maxFiles, maxSize, k, history, lost)
    ensures GapFree(disk, base, maxFiles, k) && AllFit(disk, base, maxFiles, maxSize)
    ensures history == lost + Stored(disk, base, k)
  {
  }
}
