// Files as the stores use them: names that stand for files, handles that outlive a name, and the history
// of one file. `std::fs::write` opens a name and truncates the file it stands for, then writes through the
// open handle from offset 0, wherever that file has been renamed to meanwhile.
module Files {
  import opened Wrappers
  import opened Utf8

  // `content` after `chunk` is written at `off`; a gap before `off` fills with zeros.
  function Overlay(content: seq<Byte>, off: nat, chunk: seq<Byte>): (r: seq<Byte>)
    requires chunk != [] || off <= |content|
    ensures |r| == if |content| < off + |chunk| then off + |chunk| else |content|
    ensures forall i | 0 <= i < |r| ::
      r[i] == if off <= i < off + |chunk| then chunk[i - off] else if i < |content| then content[i] else 0
  {
    var end := off + |chunk|;
    if |content| < off then content + seq(off - |content|, _ => 0) + chunk
    else content[..off] + chunk + if end < |content| then content[end..] else []
  }

  lemma OverlayOnNoLonger(content: seq<Byte>, text: seq<Byte>)
    requires |content| <= |text|
    ensures Overlay(content, 0, text) == text
  {
  }

  // Each name's file, by its number in `data`.
  datatype Fs<N(==)> = Fs(names: map<N, nat>, data: seq<seq<Byte>>)

  // Every name stands for a file, and no two for the same.
  predicate Sane<N>(fs: Fs<N>) {
    && (forall n | n in fs.names :: fs.names[n] < |fs.data|)
    && (forall m, n | m in fs.names && n in fs.names && fs.names[m] == fs.names[n] :: m == n)
  }

  function Read<N>(fs: Fs<N>, name: N): (content: Option<seq<Byte>>) {
    if name in fs.names && fs.names[name] < |fs.data| then Some(fs.data[fs.names[name]]) else None
  }

  // What a file system call does to the files. `Create` creates the file or truncates it.
  datatype Op<N> = Create(name: N) | Fill(file: nat, text: seq<Byte>) | Move(from: N, to: N) | Skip

  // The file an open of `name` gets hold of.
  function Handle<N>(fs: Fs<N>, name: N): (file: nat) {
    if name in fs.names then fs.names[name] else |fs.data|
  }

  function Do<N>(fs: Fs<N>, op: Op<N>): (r: Fs<N>) {
    match op
    case Create(name) =>
      if name !in fs.names then Fs(fs.names[name := |fs.data|], fs.data + [[]])
      else if fs.names[name] < |fs.data| then fs.(data := fs.data[fs.names[name] := []])
      else fs
    case Fill(file, text) => if file < |fs.data| then fs.(data := fs.data[file := Overlay(fs.data[file], 0, text)]) else fs
    case Move(from, to) => if from in fs.names && from != to then fs.(names := (fs.names - {from})[to := fs.names[from]]) else fs
    case Skip => fs
  }

  lemma DoKeepsSane<N>(fs: Fs<N>, op: Op<N>)
    requires Sane(fs)
    ensures Sane(Do(fs, op)) && |Do(fs, op).data| >= |fs.data|
  {
  }

  // A name that an operation is not about reads as before; a file that is written through a handle is read
  // under whatever name it has by then.
  lemma DoFrames<N>(fs: Fs<N>, op: Op<N>, name: N)
    requires Sane(fs)
    ensures
      match op
      case Create(n) => Read(Do(fs, op), name) == if name == n then Some([]) else Read(fs, name)
      case Fill(f, text) =>
        Read(Do(fs, op), name)
        == if name in fs.names && fs.names[name] == f then Some(Overlay(fs.data[f], 0, text)) else Read(fs, name)
      case Move(from, to) =>
        from in fs.names && from != to ==>
          Read(Do(fs, op), name) == if name == to then Read(fs, from) else if name == from then None else Read(fs, name)
      case Skip => true
  {
  }

  // ---------- texts ----------

  // A JSON library for one type: what it writes, and what it reads.
  datatype Json<!T> = Json(text: T -> seq<Byte>, parse: seq<Byte> -> Option<T>)

  const WHITESPACE: set<Byte> := {0x09, 0x0A, 0x0D, 0x20}

  predicate EndsInJson(text: seq<Byte>) {
    text != [] && text[|text| - 1] !in WHITESPACE
  }

  // What the stores rely on: a value is read back from its text, an empty file is no value, and after a
  // whole value nothing but white space may follow.
  ghost predicate Sound<T(!new)>(json: Json<T>) {
    && (forall v :: EndsInJson(json.text(v)) && json.parse(json.text(v)) == Some(v))
    && json.parse([]) == None
    && (forall c: seq<Byte>, k: nat | k < |c| && json.parse(c[..k]).Some? && json.parse(c).Some? :: !EndsInJson(c))
  }

  // There are such libraries: for truth values, the digits 0 and 1.
  lemma SoundIsPossible()
    ensures Sound(Json(b => [if b then 0x31 else 0x30], c => if c == [0x30] then Some(false) else if c == [0x31] then Some(true) else None))
  {
  }

  ghost predicate IsText<T(!new)>(json: Json<T>, text: seq<Byte>) {
    exists v :: text == json.text(v)
  }

  // What a file holds after these texts were written to it, each from offset 0.
  function Laid(texts: seq<seq<Byte>>): (content: seq<Byte>) {
    if texts == [] then [] else Overlay(Laid(texts[..|texts| - 1]), 0, texts[|texts| - 1])
  }

  // Something was written, and the last text is no shorter than any before it.
  predicate Whole(texts: seq<seq<Byte>>) {
    texts != [] && forall i | 0 <= i < |texts| :: |texts[i]| <= |texts[|texts| - 1]|
  }

  lemma {:induction false} LaidIsAsLongAsTheLongest(texts: seq<seq<Byte>>)
    ensures forall i | 0 <= i < |texts| :: |texts[i]| <= |Laid(texts)|
    ensures texts != [] ==> exists i | 0 <= i < |texts| :: |texts[i]| == |Laid(texts)|
  {
    if texts != [] {
      var front := texts[..|texts| - 1];
      LaidIsAsLongAsTheLongest(front);
      if |Laid(front)| > |texts[|texts| - 1]| {
        var i :| 0 <= i < |front| && |front[i]| == |Laid(front)|;
        assert texts[i] == front[i];
      } else {
        assert |texts[|texts| - 1]| == |Laid(texts)|;
      }
    }
  }

  lemma {:induction false} LaidEndsInJson(texts: seq<seq<Byte>>)
    requires texts != [] && forall i | 0 <= i < |texts| :: EndsInJson(texts[i])
    ensures EndsInJson(Laid(texts)) && texts[|texts| - 1] <= Laid(texts)
  {
    var front := texts[..|texts| - 1];
    var last := texts[|texts| - 1];
    if front != [] {
      LaidEndsInJson(front);
    }
    OverlayEndsInJson(Laid(front), last);
  }

  lemma OverlayEndsInJson(content: seq<Byte>, text: seq<Byte>)
    requires EndsInJson(text) && (content == [] || EndsInJson(content))
    ensures EndsInJson(Overlay(content, 0, text)) && text <= Overlay(content, 0, text)
  {
    var r := Overlay(content, 0, text);
    assert r[|r| - 1] == if |content| <= |text| then text[|text| - 1] else content[|content| - 1];
    assert r[..|text|] == text;
  }

  // Texts written over each other read as a value exactly when the last is no shorter than the rest; the
  // value is then the last one's.
  lemma LaidIsReadableExactlyWhen<T(!new)>(json: Json<T>, texts: seq<seq<Byte>>)
    requires Sound(json) && forall i | 0 <= i < |texts| :: IsText(json, texts[i])
    ensures json.parse(Laid(texts)).Some? <==> Whole(texts)
    ensures Whole(texts) ==> Laid(texts) == texts[|texts| - 1]
  {
    if texts != [] {
      forall i | 0 <= i < |texts| ensures EndsInJson(texts[i]) {
        assert IsText(json, texts[i]);
      }
      var last := texts[|texts| - 1];
      LaidEndsInJson(texts);
      LaidIsAsLongAsTheLongest(texts);
      var content := Laid(texts);
      assert content[..|last|] == last && IsText(json, last);
      if |last| == |content| {
        assert content == last;
      }
    }
  }

  // One text over another.
  lemma TextOverText<T(!new)>(json: Json<T>, first: seq<Byte>, text: seq<Byte>)
    requires Sound(json) && IsText(json, first) && IsText(json, text)
    ensures json.parse(Overlay(first, 0, text)).Some? <==> |first| <= |text|
  {
    var content := Overlay(first, 0, text);
    OverlayEndsInJson(first, text);
    assert content[..|text|] == text;
    if |first| <= |text| {
      OverlayOnNoLonger(first, text);
    }
  }

  lemma LaidAppend(texts: seq<seq<Byte>>, text: seq<Byte>)
    ensures Laid(texts + [text]) == Overlay(Laid(texts), 0, text)
  {
    var more := texts + [text];
    assert more[..|more| - 1] == texts && more[|more| - 1] == text;
  }

  // ---------- the history of a file ----------

  ghost predicate FsRun<N(!new)>(fss: seq<Fs<N>>, ops: seq<Op<N>>) {
    && |fss| == |ops| + 1
    && Sane(fss[0])
    && (forall i | 0 <= i < |ops| :: fss[i + 1] == Do(fss[i], ops[i]))
    && (forall i | 0 <= i < |ops| && ops[i].Fill? :: WasOpened(fss, ops, ops[i].file, i))
  }

  predicate Opens<N>(fs: Fs<N>, op: Op<N>, file: nat) {
    op.Create? && Handle(fs, op.name) == file
  }

  // Somebody opened the file before step `n`. It was empty then.
  predicate WasOpened<N>(fss: seq<Fs<N>>, ops: seq<Op<N>>, file: nat, n: nat)
    requires n <= |ops| < |fss|
  {
    exists m | 0 <= m < n :: Opens(fss[m], ops[m], file)
  }

  // The texts written to the file before step `n`, in order, since it was last opened.
  function Texts<N>(fss: seq<Fs<N>>, ops: seq<Op<N>>, file: nat, n: nat): (texts: seq<seq<Byte>>)
    requires n <= |ops| < |fss|
  {
    if n == 0 || Opens(fss[n - 1], ops[n - 1], file) then []
    else Texts(fss, ops, file, n - 1) + if ops[n - 1].Fill? && ops[n - 1].file == file then [ops[n - 1].text] else []
  }

  lemma {:induction false} RunIsSane<N(!new)>(fss: seq<Fs<N>>, ops: seq<Op<N>>, n: nat)
    requires FsRun(fss, ops) && n < |fss|
    ensures Sane(fss[n]) && |fss[0].data| <= |fss[n].data|
  {
    if n > 0 {
      RunIsSane(fss, ops, n - 1);
      DoKeepsSane(fss[n - 1], ops[n - 1]);
    }
  }

  // A file that was opened holds just what was written to it since; one that was not is as it was.
  lemma {:induction false} ContentIsWhatWasWritten<N(!new)>(fss: seq<Fs<N>>, ops: seq<Op<N>>, file: nat, n: nat)
    requires FsRun(fss, ops) && n < |fss|
    ensures WasOpened(fss, ops, file, n) ==> file < |fss[n].data| && fss[n].data[file] == Laid(Texts(fss, ops, file, n))
    ensures !WasOpened(fss, ops, file, n) && file < |fss[n].data| ==> file < |fss[0].data| && fss[n].data[file] == fss[0].data[file]
  {
    if n > 0 {
      ContentIsWhatWasWritten(fss, ops, file, n - 1);
      RunIsSane(fss, ops, n - 1);
      ContentOneStep(fss, ops, file, n - 1, n);
    }
  }

  lemma TextsOneStep<N>(fss: seq<Fs<N>>, ops: seq<Op<N>>, file: nat, n: nat, next: nat)
    requires n < |ops| < |fss| && next == n + 1
    ensures Texts(fss, ops, file, next) ==
      if Opens(fss[n], ops[n], file) then []
      else if ops[n].Fill? && ops[n].file == file then Texts(fss, ops, file, n) + [ops[n].text]
      else Texts(fss, ops, file, n)
  {
    assert Texts(fss, ops, file, n) + [] == Texts(fss, ops, file, n);
  }

  lemma OpenedOneMore<N>(fss: seq<Fs<N>>, ops: seq<Op<N>>, file: nat, n: nat, next: nat)
    requires n < |ops| < |fss| && next == n + 1
    ensures WasOpened(fss, ops, file, next) <==> WasOpened(fss, ops, file, n) || Opens(fss[n], ops[n], file)
  {
    if WasOpened(fss, ops, file, n) {
      var m :| 0 <= m < n && Opens(fss[m], ops[m], file);
      assert Opens(fss[m], ops[m], file);
    }
  }

  lemma ContentOneStep<N(!new)>(fss: seq<Fs<N>>, ops: seq<Op<N>>, file: nat, n: nat, next: nat)
    requires FsRun(fss, ops) && n < |ops| && next == n + 1 && Sane(fss[n])
    requires WasOpened(fss, ops, file, n) ==> file < |fss[n].data| && fss[n].data[file] == Laid(Texts(fss, ops, file, n))
    requires !WasOpened(fss, ops, file, n) && file < |fss[n].data| ==> file < |fss[0].data| && fss[n].data[file] == fss[0].data[file]
    ensures WasOpened(fss, ops, file, next) ==>
      file < |fss[next].data| && fss[next].data[file] == Laid(Texts(fss, ops, file, next))
    ensures !WasOpened(fss, ops, file, next) && file < |fss[next].data| ==>
      file < |fss[0].data| && fss[next].data[file] == fss[0].data[file]
  {
    var op := ops[n];
    OpenedOneMore(fss, ops, file, n, next);
    TextsOneStep(fss, ops, file, n, next);
    if op.Fill? && op.file == file {
      assert WasOpened(fss, ops, file, n);
      LaidAppend(Texts(fss, ops, file, n), op.text);
    }
  }

  lemma {:induction false} TextsAreTexts<N(!new), T(!new)>(json: Json<T>, fss: seq<Fs<N>>, ops: seq<Op<N>>, file: nat, n: nat)
    requires n <= |ops| < |fss|
    requires forall i | 0 <= i < |ops| && ops[i].Fill? :: IsText(json, ops[i].text)
    ensures forall i | 0 <= i < |Texts(fss, ops, file, n)| :: IsText(json, Texts(fss, ops, file, n)[i])
  {
    if n > 0 {
      TextsAreTexts(json, fss, ops, file, n - 1);
    }
  }

  // A file that was opened in a run is readable exactly when, since it was last opened, something was
  // written to it and the last text written is no shorter than any before it.
  lemma FileIsReadableExactlyWhen<N(!new), T(!new)>(json: Json<T>, fss: seq<Fs<N>>, ops: seq<Op<N>>, file: nat, n: nat)
    requires Sound(json) && FsRun(fss, ops) && n < |fss| && WasOpened(fss, ops, file, n)
    requires forall i | 0 <= i < |ops| && ops[i].Fill? :: IsText(json, ops[i].text)
    ensures file < |fss[n].data|
    ensures json.parse(fss[n].data[file]).Some? <==> Whole(Texts(fss, ops, file, n))
    ensures Whole(Texts(fss, ops, file, n)) ==> IsText(json, fss[n].data[file])
  {
    ContentIsWhatWasWritten(fss, ops, file, n);
    TextsAreTexts(json, fss, ops, file, n);
    LaidIsReadableExactlyWhen(json, Texts(fss, ops, file, n));
  }
}
