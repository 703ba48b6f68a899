/**
  The model's name, derived from the file path it was loaded from, and the
  display name built from it.
 */
module Naming {

  /** Path separators recognised by the name extraction. */
  const Separators: set<char> := {'/', '\\'}

  /** The index of the last character of s in cs, or -1 when there is none. */
  function LastIndexIn(s: string, cs: set<char>): (r: int)
    ensures -1 <= r < |s|
    ensures r >= 0 ==> s[r] in cs
    ensures forall j | r < j < |s| :: s[j] !in cs
  {
    if s == [] then -1
    else if s[|s| - 1] in cs then |s| - 1
    else LastIndexIn(s[..|s| - 1], cs)
  }

  /** Everything after the last separator, or the whole path when there is none. */
  function BaseName(path: string): string
  {
    var i := LastIndexIn(path, Separators);
    if i >= 0 then path[i + 1..] else path
  }

  /** Everything before the last '.', or the whole name when there is none. */
  function StripExtension(name: string): string
  {
    var i := LastIndexIn(name, {'.'});
    if i >= 0 then name[..i] else name
  }

  /** The model name of a loaded file: its base name with the extension removed. */
  function ModelName(path: string): string
  {
    StripExtension(BaseName(path))
  }

  /** The text shown for a model: empty for an unnamed model, else "Model (" + name + ")". */
  function DisplayName(name: string): (r: string)
    ensures r == [] <==> name == []
    ensures name != [] ==> |r| == |name| + 8 && r[7..|r| - 1] == name
  {
    if name == [] then "" else "Model (" + name + ")"
  }

  /**
    The model name holds no separator and is a contiguous piece of the path
    that the rest of the path surrounds: a directory part ending in a
    separator (or nothing) before it, and an extension starting with '.'
    (or nothing) after it.
   */
  lemma ModelNameShape(path: string)
    ensures forall k | 0 <= k < |ModelName(path)| :: ModelName(path)[k] !in Separators
    ensures exists dir, ext ::
      && path == dir + ModelName(path) + ext
      && (dir == [] || dir[|dir| - 1] in Separators)
      && (ext == [] || ext[0] == '.')
      && (forall k | 0 <= k < |ext| :: ext[k] !in Separators)
  {
    var base := BaseName(path);
    var dir := BaseNameSplit(path);
    var ext := StripExtensionSplit(base);
    var name := ModelName(path);
    assert path == dir + name + ext;
    forall k | 0 <= k < |name| ensures name[k] !in Separators {
      assert name[k] == base[k];
    }
    forall k | 0 <= k < |ext| ensures ext[k] !in Separators {
      assert ext[k] == base[|name| + k];
    }
  }

  /** The base name holds no separator and follows a directory part that ends in one (or is empty). */
  lemma BaseNameSplit(path: string) returns (dir: string)
    ensures path == dir + BaseName(path)
    ensures dir == [] || dir[|dir| - 1] in Separators
    ensures forall k | 0 <= k < |BaseName(path)| :: BaseName(path)[k] !in Separators
  {
    var i := LastIndexIn(path, Separators);
    dir := if i >= 0 then path[..i + 1] else [];
    forall k | 0 <= k < |BaseName(path)| ensures BaseName(path)[k] !in Separators {
      if i >= 0 {
        assert BaseName(path)[k] == path[i + 1 + k];
      }
    }
  }

  /** Stripping the extension leaves a prefix followed by nothing or by a piece starting with '.'. */
  lemma StripExtensionSplit(name: string) returns (ext: string)
    ensures name == StripExtension(name) + ext
    ensures ext == [] || ext[0] == '.'
  {
    var j := LastIndexIn(name, {'.'});
    ext := if j >= 0 then name[j..] else [];
  }

  /**
    The round trip: a file stem without separators, in any directory, with
    an extension free of '.' and separators, is recovered as the model name.
   */
  lemma ModelNameOfFile(dir: string, stem: string, ext: string)
    requires forall k | 0 <= k < |stem| :: stem[k] !in Separators
    requires forall k | 0 <= k < |ext| :: ext[k] !in Separators && ext[k] != '.'
    ensures ModelName(dir + "/" + stem + "." + ext) == stem
  {
    var path := dir + "/" + stem + "." + ext;
    var tail := stem + "." + ext;
    assert path == (dir + "/") + tail;
    forall k | 0 <= k < |tail| ensures tail[k] !in Separators {
      if k < |stem| { assert tail[k] == stem[k]; }
      else if k > |stem| { assert tail[k] == ext[k - |stem| - 1]; }
    }
    LastIndexAfter(dir + "/", tail, Separators);
    assert BaseName(path) == tail;
    LastIndexAfter(stem + ".", ext, {'.'});
    assert tail == (stem + ".") + ext;
  }

  /** When s ends in a character of cs and t holds none, the last one in s + t is the end of s. */
  lemma {:induction false} LastIndexAfter(s: string, t: string, cs: set<char>)
    requires |s| > 0 && s[|s| - 1] in cs
    requires forall k | 0 <= k < |t| :: t[k] !in cs
    ensures LastIndexIn(s + t, cs) == |s| - 1
  {
    assert (s + t)[|s| - 1] == s[|s| - 1];
    forall k | |s| <= k < |s + t| ensures (s + t)[k] !in cs {
      assert (s + t)[k] == t[k - |s|];
    }
  }
}

/** The mask of buffers whose data is kept on the CPU side. */
module BufferMask {

  /** The mask with bit b set (enable) or cleared (disable). */
  function SetBit(mask: bv32, b: nat, enable: bool): bv32
    requires b < 32
  {
    if enable then mask | (1 << b) else mask & !(1 << b)
  }

  function Bit(mask: bv32, k: nat): bool
    requires k < 32
  {
    mask & (1 << k) != 0
  }

  /** Setting or clearing bit b makes it the requested value and keeps every other bit. */
  lemma SetBitBits(mask: bv32, b: nat, enable: bool)
    requires b < 32
    ensures Bit(SetBit(mask, b, enable), b) == enable
    ensures forall k | 0 <= k < 32 && k != b :: Bit(SetBit(mask, b, enable), k) == Bit(mask, k)
  {
    forall k | 0 <= k < 32 && k != b
      ensures Bit(SetBit(mask, b, enable), k) == Bit(mask, k)
    {
      DistinctBits(b, k);
    }
  }

  lemma DistinctBits(b: nat, k: nat)
    requires b < 32 && k < 32 && b != k
    ensures (1 as bv32 << b) & (1 as bv32 << k) == 0
  {
  }
}
