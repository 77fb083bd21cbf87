/**
 The rotating log file sink over an abstract file system: a map from names to contents that nobody
 else writes to. Each call of rename during a rotation may fail; `works` says which ones do not.
 */
module Rotation {
  import opened FileNames
  import opened Sequences

  const MAX_FILES := 200000

  type Fs = map<string, string>

  type Luck = nat -> bool

  /** The sink between two calls: its file is always open, under the base name. */
  datatype Sink = Sink(fs: Fs, base: string, maxSize: nat, maxFiles: nat, currentSize: nat) {
    ghost predicate Valid() {
      && base in fs
      && |fs[base]| <= currentSize
      && maxSize > 0 && maxFiles <= MAX_FILES
    }
  }

  /** rename_file_: the target is removed even if the rename then fails. */
  function RenameFile(fs: Fs, src: string, target: string, works: bool): (Fs, bool)
    requires src in fs && src != target
  {
    var removed := fs - {target};
    if works then ((removed - {src})[target := removed[src]], true) else (removed, false)
  }

  function Names(base: string): nat -> string {
    (i: nat) => CalcFilename(base, i)
  }

  ghost predicate Distinct(names: nat -> string) {
    forall i: nat, j: nat :: names(i) == names(j) ==> i == j
  }

  lemma NamesAreDistinct(base: string)
    ensures Distinct(Names(base))
  {
    forall i: nat, j: nat | Names(base)(i) == Names(base)(j)
      ensures i == j
    {
      CalcFilenameInjective(base, i, j);
    }
  }

  lemma BaseIsFirst(base: string)
    ensures Names(base)(0) == base
  {
  }

  /** The loop of rotate_, from index i down; the n-th attempt to rename is the next. */
  function RotateFrom(fs: Fs, names: nat -> string, i: nat, works: Luck, n: nat): (Fs, bool)
    requires Distinct(names)
    decreases i
  {
    if i == 0 then (fs, true)
    else
      var src, target := names(i - 1), names(i);
      if src !in fs then RotateFrom(fs, names, i - 1, works, n)
      else
        var (fs1, first) := RenameFile(fs, src, target, works(n));
        if first then RotateFrom(fs1, names, i - 1, works, n + 1)
        else
          var (fs2, second) := RenameFile(fs1, src, target, works(n + 1));
          if second then RotateFrom(fs2, names, i - 1, works, n + 2) else (fs2, false)
  }

  /** rotate_: whatever happens, the base file is then reopened empty; a failure also resets the counter. */
  function Rotate(s: Sink, works: Luck): (Sink, bool) {
    NamesAreDistinct(s.base);
    var (fs, ok) := RotateFrom(s.fs, Names(s.base), s.maxFiles, works, 0);
    var reopened := s.(fs := fs[s.base := ""]);
    if ok then (reopened, true) else (reopened.(currentSize := 0), false)
  }

  function SinkIt(s: Sink, msg: string, works: Luck): (Sink, bool)
    requires s.Valid()
  {
    var newSize := s.currentSize + |msg|;
    if newSize > s.maxSize && |s.fs[s.base]| > 0 then
      var (s1, ok) := Rotate(s, works);
      if ok then (s1.(fs := s1.fs[s.base := s1.fs[s.base] + msg], currentSize := |msg|), true) else (s1, false)
    else
      (s.(fs := s.fs[s.base := s.fs[s.base] + msg], currentSize := newSize), true)
  }

  function SetMaxSize(s: Sink, maxSize: nat): (Sink, bool) {
    if maxSize == 0 then (s, false) else (s.(maxSize := maxSize), true)
  }

  function SetMaxFiles(s: Sink, maxFiles: nat): (Sink, bool) {
    if maxFiles > MAX_FILES then (s, false) else (s.(maxFiles := maxFiles), true)
  }

  datatype Content = Missing | File(text: string)

  function Lookup(fs: Fs, name: string): Content {
    if name in fs then File(fs[name]) else Missing
  }

  /** A sink that goes on where the file ends, after creating it if need be. */
  function AppendTo(fs: Fs, base: string, maxSize: nat, maxFiles: nat): Sink {
    var fs1 := if base in fs then fs else fs[base := ""];
    Sink(fs1, base, maxSize, maxFiles, |fs1[base]|)
  }

  function Started(fs: Fs, base: string, maxSize: nat, maxFiles: nat, rotateOnOpen: bool, works: Luck): Sink {
    var s := AppendTo(fs, base, maxSize, maxFiles);
    if rotateOnOpen && s.currentSize > 0 then Rotate(s, works).0.(currentSize := 0) else s
  }

  class RotatingFileSink {
    const baseFilename: string
    var fs: Fs
    var maxSize: nat
    var maxFiles: nat
    var currentSize: nat

    function State(): Sink
      reads this
    {
      Sink(fs, baseFilename, maxSize, maxFiles, currentSize)
    }

    constructor (s: Sink)
      ensures State() == s
    {
      baseFilename, fs, maxSize, maxFiles, currentSize := s.base, s.fs, s.maxSize, s.maxFiles, s.currentSize;
    }

    /** The public constructor, which throws on bad limits and on a rotation that fails. */
    static method Open(base: string, fs: Fs, maxSize: nat, maxFiles: nat, rotateOnOpen: bool, works: Luck)
      returns (sink: RotatingFileSink?)
      ensures sink == null <==>
        || maxSize == 0 || maxFiles > MAX_FILES
        || (rotateOnOpen && Lookup(fs, base).File? && fs[base] != "" && !Rotate(AppendTo(fs, base, maxSize, maxFiles), works).1)
      ensures sink != null ==> fresh(sink) && sink.State().Valid()
      ensures sink != null ==> sink.State() == Started(fs, base, maxSize, maxFiles, rotateOnOpen, works)
      ensures sink != null ==> sink.baseFilename == base && sink.maxSize == maxSize && sink.maxFiles == maxFiles
      ensures sink != null && (!rotateOnOpen || base !in fs || fs[base] == "") ==>
                var text := if base in fs then fs[base] else "";
                sink.fs == fs[base := text] && sink.currentSize == |text|
    {
      if maxSize == 0 || maxFiles > MAX_FILES {
        return null;
      }
      var created := new RotatingFileSink(AppendTo(fs, base, maxSize, maxFiles));
      if rotateOnOpen && created.currentSize > 0 {
        var ok := created.RotateFiles(works);
        if !ok {
          return null;
        }
        created.currentSize := 0;
      }
      sink := created;
    }

    method RotateFiles(works: Luck) returns (ok: bool)
      modifies this
      ensures (State(), ok) == Rotate(old(State()), works)
    {
      hide CalcFilename;
      var i := maxFiles;
      var n := 0;
      ghost var names := Names(baseFilename);
      NamesAreDistinct(baseFilename);
      while i > 0
        invariant State() == old(State()).(fs := fs)
        invariant RotateFrom(old(fs), names, maxFiles, works, 0) == RotateFrom(fs, names, i, works, n)
      {
        var src := CalcFilename(baseFilename, i - 1);
        if src in fs {
          var target := CalcFilename(baseFilename, i);
          assert src == names(i - 1) && target == names(i);
          var renamed;
          fs, renamed := RenameFile(fs, src, target, works(n)).0, works(n);
          n := n + 1;
          if !renamed {
            fs, renamed := RenameFile(fs, src, target, works(n)).0, works(n);
            n := n + 1;
            if !renamed {
              fs := fs[baseFilename := ""];
              currentSize := 0;
              return false;
            }
          }
        }
        i := i - 1;
      }
      fs := fs[baseFilename := ""];
      ok := true;
    }

    method Log(msg: string, works: Luck) returns (ok: bool)
      requires State().Valid()
      modifies this
      ensures (State(), ok) == SinkIt(old(State()), msg, works)
    {
      var newSize := currentSize + |msg|;
      if newSize > maxSize {
        if |fs[baseFilename]| > 0 {
          ok := RotateFiles(works);
          if !ok {
            return;
          }
          newSize := |msg|;
        }
      }
      fs := fs[baseFilename := fs[baseFilename] + msg];
      currentSize := newSize;
      ok := true;
    }

    method ChangeMaxSize(maxSize: nat) returns (ok: bool)
      modifies this
      ensures (State(), ok) == SetMaxSize(old(State()), maxSize)
      ensures ok == (maxSize != 0) && State() == if ok then old(State()).(maxSize := maxSize) else old(State())
    {
      ok := maxSize != 0;
      if ok {
        this.maxSize := maxSize;
      }
    }

    method ChangeMaxFiles(maxFiles: nat) returns (ok: bool)
      modifies this
      ensures (State(), ok) == SetMaxFiles(old(State()), maxFiles)
      ensures ok == (maxFiles <= 200000) && State() == if ok then old(State()).(maxFiles := maxFiles) else old(State())
    {
      ok := maxFiles <= MAX_FILES;
      if ok {
        this.maxFiles := maxFiles;
      }
    }
  }

  // What a rotation does to the files.

  /** The file in slot i. */
  function Slot(fs: Fs, base: string, i: nat): Content {
    Lookup(fs, CalcFilename(base, i))
  }

  /** Slot i after slots 0 to max-1 have moved up by one. */
  function ShiftedSlot(fs: Fs, names: nat -> string, max: nat, i: nat): Content
    requires i <= max
  {
    if i > 0 && Lookup(fs, names(i - 1)).File? then Lookup(fs, names(i - 1))
    else if i == max then Lookup(fs, names(i))
    else Missing
  }

  /** Slots above i are in place, slot i has moved away, those below are still to move. */
  ghost predicate HalfWay(before: Fs, fs: Fs, names: nat -> string, max: nat, i: nat) {
    && (forall j: nat :: i < j <= max ==> Lookup(fs, names(j)) == ShiftedSlot(before, names, max, j))
    && (i <= max ==> Lookup(fs, names(i)) == if i == max then Lookup(before, names(i)) else Missing)
    && (forall j: nat :: j < i && j <= max ==> Lookup(fs, names(j)) == Lookup(before, names(j)))
    && (forall name :: (forall j: nat :: j <= max ==> name != names(j)) ==> Lookup(fs, name) == Lookup(before, name))
  }

  lemma RenameStep(before: Fs, fs: Fs, names: nat -> string, max: nat, i: nat)
    requires Distinct(names)
    requires 0 < i <= max && HalfWay(before, fs, names, max, i) && names(i - 1) in fs
    ensures names(i - 1) != names(i)
    ensures HalfWay(before, RenameFile(fs, names(i - 1), names(i), true).0, names, max, i - 1)
  {
    var after := RenameFile(fs, names(i - 1), names(i), true).0;
    forall name
      ensures name == names(i) ==> Lookup(after, name) == Lookup(fs, names(i - 1))
      ensures name == names(i - 1) ==> Lookup(after, name) == Missing
      ensures name != names(i) && name != names(i - 1) ==> Lookup(after, name) == Lookup(fs, name)
    {
    }
  }

  lemma SkipStep(before: Fs, fs: Fs, names: nat -> string, max: nat, i: nat)
    requires 0 < i <= max && HalfWay(before, fs, names, max, i) && names(i - 1) !in fs
    ensures HalfWay(before, fs, names, max, i - 1)
  {
  }

  /** The first attempt already removes the target; a second one that works has the same outcome. */
  lemma RenameTwice(fs: Fs, src: string, target: string)
    requires src in fs && src != target
    ensures src in RenameFile(fs, src, target, false).0
    ensures RenameFile(RenameFile(fs, src, target, false).0, src, target, true).0 == RenameFile(fs, src, target, true).0
  {
  }

  lemma {:induction false} RotateFromShifts(before: Fs, fs: Fs, names: nat -> string, max: nat, i: nat, works: Luck, n: nat)
    requires Distinct(names) && i <= max && HalfWay(before, fs, names, max, i)
    requires RotateFrom(fs, names, i, works, n).1
    ensures HalfWay(before, RotateFrom(fs, names, i, works, n).0, names, max, 0)
    decreases i
  {
    hide HalfWay;
    if i > 0 {
      var src, target := names(i - 1), names(i);
      if src !in fs {
        SkipStep(before, fs, names, max, i);
        RotateFromShifts(before, fs, names, max, i - 1, works, n);
      } else {
        RenameStep(before, fs, names, max, i);
        var renamed := RenameFile(fs, src, target, true).0;
        if works(n) {
          RotateFromShifts(before, renamed, names, max, i - 1, works, n + 1);
        } else {
          RenameTwice(fs, src, target);
          RotateFromShifts(before, renamed, names, max, i - 1, works, n + 2);
        }
      }
    }
  }

  /**
   A rotation that succeeds is a right shift with gaps: slot i gets what slot i-1 had; a slot whose
   left neighbour was missing is empty, except that the last one then keeps its file; slot 0 is a new
   empty file; and no other file is touched.
   */
  lemma RotationShifts(s: Sink, works: Luck)
    requires Rotate(s, works).1
    ensures var fs1, names := Rotate(s, works).0.fs, Names(s.base);
            && Lookup(fs1, names(0)) == File("")
            && (forall i: nat :: 1 <= i <= s.maxFiles ==> Lookup(fs1, names(i)) == ShiftedSlot(s.fs, names, s.maxFiles, i))
            && (forall name :: (forall j: nat :: j <= s.maxFiles ==> name != names(j)) ==>
                                 Lookup(fs1, name) == Lookup(s.fs, name))
  {
    NamesAreDistinct(s.base);
    BaseIsFirst(s.base);
    hide RotateFrom, Names;
    RotateFromShifts(s.fs, s.fs, Names(s.base), s.maxFiles, s.maxFiles, works, 0);
  }

  /** What a rotation that gave up at slot k leaves: it had shifted the slots above, and removed what was in the way. */
  ghost predicate GaveUp(before: Fs, fs: Fs, names: nat -> string, max: nat, k: nat) {
    && 1 <= k <= max && names(k - 1) in before
    && (forall j: nat :: k < j <= max ==> Lookup(fs, names(j)) == ShiftedSlot(before, names, max, j))
    && Lookup(fs, names(k)) == Missing
    && (forall j: nat :: j < k ==> Lookup(fs, names(j)) == Lookup(before, names(j)))
    && (forall name :: (forall j: nat :: j <= max ==> name != names(j)) ==> Lookup(fs, name) == Lookup(before, name))
  }

  lemma GivesUp(before: Fs, fs: Fs, names: nat -> string, max: nat, i: nat)
    requires Distinct(names) && 0 < i <= max && HalfWay(before, fs, names, max, i) && names(i - 1) in fs
    ensures GaveUp(before, RenameFile(RenameFile(fs, names(i - 1), names(i), false).0, names(i - 1), names(i), false).0,
                   names, max, i)
  {
    var after := RenameFile(RenameFile(fs, names(i - 1), names(i), false).0, names(i - 1), names(i), false).0;
    forall name ensures Lookup(after, name) == if name == names(i) then Missing else Lookup(fs, name) {
    }
  }

  lemma {:induction false} RotateFromGivesUp(before: Fs, fs: Fs, names: nat -> string, max: nat, i: nat, works: Luck, n: nat)
    returns (k: nat)
    requires Distinct(names) && i <= max && HalfWay(before, fs, names, max, i)
    requires !RotateFrom(fs, names, i, works, n).1
    ensures GaveUp(before, RotateFrom(fs, names, i, works, n).0, names, max, k)
    decreases i
  {
    hide HalfWay, GaveUp;
    var src, target := names(i - 1), names(i);
    if src !in fs {
      SkipStep(before, fs, names, max, i);
      k := RotateFromGivesUp(before, fs, names, max, i - 1, works, n);
    } else {
      RenameStep(before, fs, names, max, i);
      var renamed := RenameFile(fs, src, target, true).0;
      if works(n) {
        k := RotateFromGivesUp(before, renamed, names, max, i - 1, works, n + 1);
      } else {
        RenameTwice(fs, src, target);
        if works(n + 1) {
          k := RotateFromGivesUp(before, renamed, names, max, i - 1, works, n + 2);
        } else {
          GivesUp(before, fs, names, max, i);
          k := i;
        }
      }
    }
  }

  /**
   A rotation that fails stops at some slot: those above have moved up, its own file is gone, those
   below are untouched, but file 0 is emptied all the same, and the counter with it.
   */
  lemma RotationFails(s: Sink, works: Luck) returns (k: nat)
    requires !Rotate(s, works).1
    ensures var after, names := Rotate(s, works).0, Names(s.base);
            && 1 <= k <= s.maxFiles && names(k - 1) in s.fs
            && (forall j: nat :: k < j <= s.maxFiles ==> Lookup(after.fs, names(j)) == ShiftedSlot(s.fs, names, s.maxFiles, j))
            && Lookup(after.fs, names(k)) == Missing
            && (forall j: nat :: 0 < j < k ==> Lookup(after.fs, names(j)) == Lookup(s.fs, names(j)))
            && Lookup(after.fs, names(0)) == File("") && after.currentSize == 0
            && (forall name :: (forall j: nat :: j <= s.maxFiles ==> name != names(j)) ==>
                                 Lookup(after.fs, name) == Lookup(s.fs, name))
  {
    NamesAreDistinct(s.base);
    BaseIsFirst(s.base);
    hide RotateFrom, Names;
    k := RotateFromGivesUp(s.fs, s.fs, Names(s.base), s.maxFiles, s.maxFiles, works, 0);
  }

  /** A sink that rotates when it is opened: the old log has moved to slot 1, the new one is empty, and so is the counter. */
  lemma OpenedRotated(fs: Fs, base: string, maxSize: nat, maxFiles: nat, works: Luck)
    requires base in fs && fs[base] != "" && Rotate(AppendTo(fs, base, maxSize, maxFiles), works).1
    ensures var s := Started(fs, base, maxSize, maxFiles, true, works);
            && s.base == base && s.maxSize == maxSize && s.maxFiles == maxFiles && s.currentSize == 0
            && Lookup(s.fs, base) == File("")
            && (maxFiles > 0 ==> Slot(s.fs, base, 1) == File(fs[base]))
            && (forall i: nat :: 2 <= i <= maxFiles && Slot(fs, base, i - 1).File? ==>
                                   Slot(s.fs, base, i) == Slot(fs, base, i - 1))
            && (forall name :: (forall j: nat :: j <= maxFiles ==> name != CalcFilename(base, j)) ==>
                                 Lookup(s.fs, name) == Lookup(fs, name))
  {
    hide CalcFilename, RotateFrom;
    var s := AppendTo(fs, base, maxSize, maxFiles);
    RotationShifts(s, works);
    BaseIsFirst(base);
    assert forall j: nat :: Names(base)(j) == CalcFilename(base, j);
  }

  // Nothing that was logged is lost but the oldest file.

  function Text(c: Content): string {
    if c.File? then c.text else ""
  }

  function SlotTexts(fs: Fs, base: string): nat -> string {
    (i: nat) => Text(Lookup(fs, Names(base)(i)))
  }

  /** Texts i down to 0: the oldest log is in the last slot. */
  function Downward(texts: nat -> string, i: nat): string {
    texts(i) + if i == 0 then "" else Downward(texts, i - 1)
  }

  /** All that the slots hold, oldest first. */
  function History(fs: Fs, base: string, max: nat): string {
    Downward(SlotTexts(fs, base), max)
  }

  lemma {:induction false} ShiftedDownward(before: nat -> string, after: nat -> string, i: nat)
    requires i > 0 && after(0) == "" && forall j: nat :: 0 < j <= i ==> after(j) == before(j - 1)
    ensures Downward(after, i) == Downward(before, i - 1)
  {
    if i == 1 {
      assert Downward(after, 0) == "" + "";
      assert before(0) + "" == before(0);
    } else {
      ShiftedDownward(before, after, i - 1);
    }
  }

  /** Either the last text is pushed out, or nothing came into its place. */
  lemma LastMoves(before: nat -> string, after: nat -> string, max: nat, pushed: bool)
    requires max > 0 && after(0) == "" && forall j: nat :: 0 < j < max ==> after(j) == before(j - 1)
    requires if pushed then after(max) == before(max - 1) else after(max) == before(max) && before(max - 1) == ""
    ensures Downward(before, max) == (if pushed then before(max) else "") + Downward(after, max)
  {
    if pushed {
      ShiftedDownward(before, after, max);
    } else {
      var older := Downward(after, max - 1);
      if max == 1 {
        assert older == "" + "" && Downward(before, 0) == "" + "";
      } else {
        ShiftedDownward(before, after, max - 1);
        assert Downward(before, max - 1) == "" + older;
        assert "" + older == older;
      }
      assert "" + Downward(after, max) == Downward(after, max);
    }
  }

  /** What a successful rotation forgets: the last slot, if something moves into it. */
  function Forgotten(s: Sink): string {
    if s.maxFiles == 0 then Text(Slot(s.fs, s.base, 0))
    else if Slot(s.fs, s.base, s.maxFiles - 1).File? then Text(Slot(s.fs, s.base, s.maxFiles))
    else ""
  }

  lemma RotationConserves(s: Sink, works: Luck)
    requires Rotate(s, works).1
    ensures History(s.fs, s.base, s.maxFiles) == Forgotten(s) + History(Rotate(s, works).0.fs, s.base, s.maxFiles)
  {
    RotationShifts(s, works);
    if s.maxFiles > 0 {
      LastMoves(SlotTexts(s.fs, s.base), SlotTexts(Rotate(s, works).0.fs, s.base), s.maxFiles,
                Slot(s.fs, s.base, s.maxFiles - 1).File?);
    }
  }

  lemma {:induction false} AppendedDownward(before: nat -> string, after: nat -> string, msg: string, i: nat)
    requires after(0) == before(0) + msg && forall j: nat :: 0 < j <= i ==> after(j) == before(j)
    ensures Downward(after, i) == Downward(before, i) + msg
  {
    if i == 0 {
      assert after(0) + "" == before(0) + "" + msg;
    } else {
      AppendedDownward(before, after, msg, i - 1);
      var older := Downward(before, i - 1);
      assert before(i) + (older + msg) == (before(i) + older) + msg;
    }
  }

  lemma AppendConserves(fs: Fs, fs1: Fs, base: string, msg: string, max: nat, forgotten: string)
    requires base in fs1 && History(fs, base, max) == forgotten + History(fs1, base, max)
    ensures forgotten + History(fs1[base := fs1[base] + msg], base, max) == History(fs, base, max) + msg
  {
    NamesAreDistinct(base);
    assert Names(base)(0) == base;
    AppendedDownward(SlotTexts(fs1, base), SlotTexts(fs1[base := fs1[base] + msg], base), msg, max);
    Associates(forgotten, History(fs1, base, max), msg);
  }

  /** The estimate exceeds the limit and the file is not empty. */
  predicate Rotates(s: Sink, msg: string)
    requires s.Valid()
  {
    s.currentSize + |msg| > s.maxSize && s.fs[s.base] != ""
  }

  /** Read oldest file first, the log is what it was plus the message, short of a forgotten oldest file. */
  lemma LogConserves(s: Sink, msg: string, works: Luck)
    requires s.Valid() && SinkIt(s, msg, works).1
    ensures (if Rotates(s, msg) then Forgotten(s) else "") + History(SinkIt(s, msg, works).0.fs, s.base, s.maxFiles)
         == History(s.fs, s.base, s.maxFiles) + msg
  {
    if Rotates(s, msg) {
      RotationConserves(s, works);
      AppendConserves(s.fs, Rotate(s, works).0.fs, s.base, msg, s.maxFiles, Forgotten(s));
    } else {
      assert "" + History(s.fs, s.base, s.maxFiles) == History(s.fs, s.base, s.maxFiles);
      AppendConserves(s.fs, s.fs, s.base, msg, s.maxFiles, "");
    }
  }

  // The size bound, over every run.

  datatype Op = LogOp(msg: string, works: Luck) | RotateNow(works: Luck) | MaxSizeOp(maxSize: nat) | MaxFilesOp(maxFiles: nat)

  function Apply(s: Sink, op: Op): (Sink, bool)
    requires s.Valid()
  {
    match op
    case LogOp(msg, works) => SinkIt(s, msg, works)
    case RotateNow(works) => Rotate(s, works)
    case MaxSizeOp(maxSize) => SetMaxSize(s, maxSize)
    case MaxFilesOp(maxFiles) => SetMaxFiles(s, maxFiles)
  }

  /** The counter never falls below the real size, and a message that was written left the file within bounds. */
  lemma OpKeepsBounds(s: Sink, op: Op)
    requires s.Valid()
    ensures var (s1, ok) := Apply(s, op);
            && s1.Valid() && s1.base == s.base
            && (op.LogOp? && ok ==> |s1.fs[s.base]| <= if |op.msg| > s1.maxSize then |op.msg| else s1.maxSize)
            && (!ok ==> s1.fs == s.fs || s1.fs[s.base] == "")
  {
  }

  /** How many of the slots below i exist: as many files a rotation has to rename. */
  function Existing(fs: Fs, names: nat -> string, i: nat): nat {
    if i == 0 then 0 else (if names(i - 1) in fs then 1 else 0) + Existing(fs, names, i - 1)
  }

  /** From the n-th attempt on, each of a number of renames works the first or the second time. */
  predicate TriesWork(works: Luck, n: nat, renames: nat)
    decreases renames
  {
    renames == 0
    || (works(n) && TriesWork(works, n + 1, renames - 1))
    || (!works(n) && works(n + 1) && TriesWork(works, n + 2, renames - 1))
  }

  predicate RotationWorks(s: Sink, works: Luck) {
    TriesWork(works, 0, Existing(s.fs, Names(s.base), s.maxFiles))
  }

  lemma {:induction false} ExistingFrame(fs: Fs, fs': Fs, names: nat -> string, i: nat)
    requires forall j: nat :: j < i ==> (names(j) in fs <==> names(j) in fs')
    ensures Existing(fs, names, i) == Existing(fs', names, i)
  {
    if i > 0 {
      ExistingFrame(fs, fs', names, i - 1);
    }
  }

  lemma {:induction false} RotateWorksIff(fs: Fs, names: nat -> string, i: nat, works: Luck, n: nat)
    requires Distinct(names)
    ensures RotateFrom(fs, names, i, works, n).1 <==> TriesWork(works, n, Existing(fs, names, i))
    decreases i
  {
    if i > 0 {
      var src, target := names(i - 1), names(i);
      if src !in fs {
        RotateWorksIff(fs, names, i - 1, works, n);
      } else {
        var renamed := RenameFile(fs, src, target, true).0;
        RenameTwice(fs, src, target);
        ExistingFrame(fs, renamed, names, i - 1);
        RotateWorksIff(renamed, names, i - 1, works, n + 1);
        RotateWorksIff(renamed, names, i - 1, works, n + 2);
      }
    }
  }

  /** A rotation succeeds exactly if no rename fails twice. */
  lemma RotationWorksIff(s: Sink, works: Luck)
    ensures Rotate(s, works).1 <==> RotationWorks(s, works)
  {
    NamesAreDistinct(s.base);
    RotateWorksIff(s.fs, Names(s.base), s.maxFiles, works, 0);
  }

  function Run(s: Sink, ops: seq<Op>): (s1: Sink)
    requires s.Valid()
    ensures s1.Valid() && s1.base == s.base
  {
    if ops == [] then s
    else
      OpKeepsBounds(Run(s, ops[..|ops| - 1]), ops[|ops| - 1]);
      Apply(Run(s, ops[..|ops| - 1]), ops[|ops| - 1]).0
  }

  // The log over runs.

  /** Operations that keep the number of slots, and whose rotation, if they make one, works. */
  predicate Works(s: Sink, op: Op)
    requires s.Valid()
  {
    match op
    case LogOp(msg, works) => Rotates(s, msg) ==> RotationWorks(s, works)
    case RotateNow(works) => RotationWorks(s, works)
    case MaxSizeOp(_) => true
    case MaxFilesOp(maxFiles) => maxFiles == s.maxFiles
  }

  predicate AllWork(s: Sink, ops: seq<Op>)
    requires s.Valid()
  {
    ops == [] || (AllWork(s, ops[..|ops| - 1]) && Works(Run(s, ops[..|ops| - 1]), ops[|ops| - 1]))
  }

  function ForgottenBy(s: Sink, op: Op): string
    requires s.Valid()
  {
    match op
    case LogOp(msg, _) => if Rotates(s, msg) then Forgotten(s) else ""
    case RotateNow(_) => Forgotten(s)
    case MaxSizeOp(_) => ""
    case MaxFilesOp(_) => ""
  }

  function LoggedBy(op: Op): string {
    if op.LogOp? then op.msg else ""
  }

  /** What was in the oldest files that a run has pushed out, oldest first. */
  function AllForgotten(s: Sink, ops: seq<Op>): string
    requires s.Valid()
  {
    if ops == [] then ""
    else AllForgotten(s, ops[..|ops| - 1]) + ForgottenBy(Run(s, ops[..|ops| - 1]), ops[|ops| - 1])
  }

  function AllLogged(ops: seq<Op>): string {
    if ops == [] then "" else AllLogged(ops[..|ops| - 1]) + LoggedBy(ops[|ops| - 1])
  }

  lemma OpConserves(s: Sink, op: Op)
    requires s.Valid() && Works(s, op)
    ensures var s1 := Apply(s, op).0;
            && s1.maxFiles == s.maxFiles
            && ForgottenBy(s, op) + History(s1.fs, s.base, s.maxFiles) == History(s.fs, s.base, s.maxFiles) + LoggedBy(op)
  {
    hide History, Forgotten, RotateFrom, RotationWorks;
    match op {
      case LogOp(msg, works) =>
        RotationWorksIff(s, works);
        LogConserves(s, msg, works);
      case RotateNow(works) =>
        RotationWorksIff(s, works);
        RotationConserves(s, works);
      case MaxSizeOp(_) =>
        assert "" + History(s.fs, s.base, s.maxFiles) == History(s.fs, s.base, s.maxFiles);
      case MaxFilesOp(_) =>
        assert "" + History(s.fs, s.base, s.maxFiles) == History(s.fs, s.base, s.maxFiles);
    }
  }

  lemma ChainConserves(forgotten: string, before: string, logged: string, more: string,
                       middle: string, after: string, msg: string)
    requires forgotten + middle == before + logged && more + after == middle + msg
    ensures (forgotten + more) + after == before + (logged + msg)
  {
    Associates(forgotten, more, after);
    Associates(forgotten, middle, msg);
    Associates(before, logged, msg);
  }

  /**
   Over any run of logging, rotating and changes of the limit in which the rotations work: all the text
   forgotten so far, followed by what the files hold, is what they held at first, followed by all messages.
   */
  lemma {:induction false} RunConserves(s: Sink, ops: seq<Op>)
    requires s.Valid() && AllWork(s, ops)
    ensures Run(s, ops).maxFiles == s.maxFiles
    ensures AllForgotten(s, ops) + History(Run(s, ops).fs, s.base, s.maxFiles)
         == History(s.fs, s.base, s.maxFiles) + AllLogged(ops)
  {
    hide History, Works, ForgottenBy, LoggedBy, Apply;
    if ops == [] {
      assert "" + History(s.fs, s.base, s.maxFiles) == History(s.fs, s.base, s.maxFiles) + "";
    } else {
      var rest, op := ops[..|ops| - 1], ops[|ops| - 1];
      var middle := Run(s, rest);
      RunConserves(s, rest);
      OpConserves(middle, op);
      ChainConserves(AllForgotten(s, rest), History(s.fs, s.base, s.maxFiles), AllLogged(rest),
                     ForgottenBy(middle, op), History(middle.fs, s.base, s.maxFiles),
                     History(Run(s, ops).fs, s.base, s.maxFiles), LoggedBy(op));
    }
  }

  // The counter over runs.

  /**
   By how much the counter exceeds the file after a run: rotate_now adds the length of the file it
   rotates away, and a rotation for a message, or one that fails, starts again from an exact counter.
   */
  function Excess(s: Sink, ops: seq<Op>): int
    requires s.Valid()
  {
    if ops == [] then s.currentSize - |s.fs[s.base]|
    else
      var before, sofar := Run(s, ops[..|ops| - 1]), Excess(s, ops[..|ops| - 1]);
      match ops[|ops| - 1]
      case LogOp(msg, _) => if Rotates(before, msg) then 0 else sofar
      case RotateNow(works) => if RotationWorks(before, works) then sofar + |before.fs[s.base]| else 0
      case MaxSizeOp(_) => sofar
      case MaxFilesOp(_) => sofar
  }

  lemma OpChangesExcess(s: Sink, op: Op)
    requires s.Valid()
    ensures var s1, e := Apply(s, op).0, s.currentSize - |s.fs[s.base]|;
            && s.base in s1.fs
            && s1.currentSize - |s1.fs[s.base]| ==
               match op
               case LogOp(msg, _) => if Rotates(s, msg) then 0 else e
               case RotateNow(works) => if RotationWorks(s, works) then e + |s.fs[s.base]| else 0
               case MaxSizeOp(_) => e
               case MaxFilesOp(_) => e
  {
    if op.RotateNow? {
      RotationWorksIff(s, op.works);
    }
  }

  /** In every run the counter is the length of the file plus that excess. */
  lemma {:induction false} CounterExceedsBy(s: Sink, ops: seq<Op>)
    requires s.Valid()
    ensures Run(s, ops).currentSize == |Run(s, ops).fs[s.base]| + Excess(s, ops)
  {
    if ops != [] {
      var before := Run(s, ops[..|ops| - 1]);
      CounterExceedsBy(s, ops[..|ops| - 1]);
      OpChangesExcess(before, ops[|ops| - 1]);
    }
  }

  /** A file rotates for a message by its own length. */
  predicate ShouldRotate(s: Sink, msg: string)
    requires s.Valid()
  {
    |s.fs[s.base]| + |msg| > s.maxSize && s.fs[s.base] != ""
  }

  /** After any run, a message rotates a file that still had room for it exactly if the excess takes that room. */
  lemma RotatesEarlyIff(s: Sink, ops: seq<Op>, msg: string)
    requires s.Valid()
    ensures var r := Run(s, ops);
            var size := |r.fs[s.base]| + |msg|;
            Rotates(r, msg) != ShouldRotate(r, msg)
            <==> r.fs[s.base] != "" && size <= r.maxSize < size + Excess(s, ops)
  {
    CounterExceedsBy(s, ops);
  }

  /** An exact counter stays exact, but for one thing: a rotate_now that works on a file that is not empty. */
  lemma CounterStaysExactIff(s: Sink, op: Op)
    requires s.Valid() && s.currentSize == |s.fs[s.base]|
    ensures var s1 := Apply(s, op).0;
            && s.base in s1.fs
            && (s1.currentSize == |s1.fs[s.base]|
                <==> !(op.RotateNow? && RotationWorks(s, op.works) && s.currentSize > 0))
  {
    OpChangesExcess(s, op);
  }

  /** In every run, from the moment the sink is opened. */
  lemma SizeBoundOverRuns(fs: Fs, base: string, maxSize: nat, maxFiles: nat, rotateOnOpen: bool, luck: Luck,
                          ops: seq<Op>, msg: string, works: Luck)
    requires maxSize > 0 && maxFiles <= MAX_FILES
    ensures Started(fs, base, maxSize, maxFiles, rotateOnOpen, luck).Valid()
    ensures var s := Run(Started(fs, base, maxSize, maxFiles, rotateOnOpen, luck), ops);
            && s.base == base && |s.fs[base]| <= s.currentSize
            && var (s1, ok) := SinkIt(s, msg, works);
               ok ==> |s1.fs[base]| <= if |msg| > s.maxSize then |msg| else s.maxSize
  {
    OpKeepsBounds(Run(Started(fs, base, maxSize, maxFiles, rotateOnOpen, luck), ops), LogOp(msg, works));
  }

  /**
   The counter may be too high after rotate_now, and then the next files are rotated away too early:
   with the true size instead, the second of these two messages would have stayed with the first.
   */
  lemma StaleCounterRotatesEarly(works: Luck)
    requires forall n :: works(n)
    ensures exists s: Sink ::
      && s.Valid()
      && var s1 := SinkIt(Rotate(s, works).0, "a", works).0;
         && |s1.fs[s.base]| + |"b"| <= s1.maxSize
         && Rotates(s1, "b")
  {
    var s := Sink(map["log" := "1234567890"], "log", 10, 0, 10);
    var r := Rotate(s, works).0;
    assert r == s.(fs := map["log" := ""]);
    var s1 := SinkIt(r, "a", works).0;
    assert s1.fs["log"] == "a" && s1.currentSize == 11;
  }
}
