/** File names of the client's disk cache. */
module DiskNames {
  import opened Hex

  /** "o-<id>" in the directory of its first two digits; "" for an invalid ID. */
  function OutputFilename(dir: string, outputId: string): string {
    if ValidClientId(outputId) then Filename(dir, 'o', outputId) else ""
  }

  function ActionFilename(dir: string, actionId: string): string {
    if ValidClientId(actionId) then Filename(dir, 'a', actionId) else ""
  }

  function Filename(dir: string, kind: char, id: string): string
    requires |id| >= 2
  {
    dir + "/" + id[..2] + "/" + [kind] + "-" + id
  }

  /** The name os.CreateTemp gives for the pattern dest+".*". */
  function TempName(dest: string, suffix: string): string {
    dest + "." + suffix
  }

  /** <dir>/<first two digits>/<kind>-<id> */
  lemma FilenameParts(dir: string, kind: char, id: string)
    requires |id| >= 2
    ensures var f := Filename(dir, kind, id); var n := |dir|;
            && |f| == n + |id| + 6
            && f[..n] == dir && f[n] == '/' && f[n + 1] == id[0] && f[n + 2] == id[1] && f[n + 3] == '/'
            && f[n + 4] == kind && f[n + 5] == '-' && f[n + 6..] == id
  {
  }

  lemma NamesOfIds()
    ensures OutputFilename("/c", "0123abcd") == "/c/01/o-0123abcd"
    ensures ActionFilename("/c", "0123abcd") == "/c/01/a-0123abcd"
    ensures OutputFilename("/c", "012") == ActionFilename("/c", "012") == ""
  {
  }

  /** A name determines the kind of file and the ID: output and action files never collide. */
  lemma FilenameIsInjective(dir: string, kind: char, id: string, kind': char, id': string)
    requires |id| >= 2 && |id'| >= 2 && Filename(dir, kind, id) == Filename(dir, kind', id')
    ensures kind == kind' && id == id'
  {
    FilenameParts(dir, kind, id);
    FilenameParts(dir, kind', id');
  }

  /** No temporary file has the name of an output or action file, whatever they are for. */
  lemma TempNamesAreApart(dir: string, kind: char, id: string, suffix: string, kind': char, id': string)
    requires ValidClientId(id) && ValidClientId(id') && kind' != '.'
    ensures TempName(Filename(dir, kind, id), suffix) != Filename(dir, kind', id')
  {
    var f := Filename(dir, kind', id');
    var dot := |Filename(dir, kind, id)|;
    if TempName(Filename(dir, kind, id), suffix) == f {
      FilenameParts(dir, kind, id);
      assert f[dot] == '.';
      FilenameChars(dir, kind', id', dot);
    }
  }

  /** Two writers of a file have the same temporary one only if they have drawn the same suffix. */
  lemma TempNameIsInjective(dest: string, suffix: string, suffix': string)
    requires TempName(dest, suffix) == TempName(dest, suffix')
    ensures suffix == suffix'
  {
    assert suffix == TempName(dest, suffix)[|dest| + 1..];
    assert suffix' == TempName(dest, suffix')[|dest| + 1..];
  }

  lemma FilenameChars(dir: string, kind: char, id: string, i: nat)
    requires ValidClientId(id) && |dir| <= i < |dir| + |id| + 6
    ensures |Filename(dir, kind, id)| == |dir| + |id| + 6
    ensures var c := Filename(dir, kind, id)[i]; c == '/' || c == '-' || c == kind || IsLowerHexDigit(c)
  {
    var f := Filename(dir, kind, id);
    assert f == dir + ("/" + id[..2] + "/" + [kind] + "-" + id);
    var tail := "/" + id[..2] + "/" + [kind] + "-" + id;
    assert f[i] == tail[i - |dir|];
  }
}
