/** Physical memory as frames of 512 words, reached through the direct map, whose offset is
    taken as zero, and the `PageTable` accessors over it. */
module PhysicalMemory {
  import opened Words

  type Frame = f: seq<Word> | |f| == ENTRIES witness seq(ENTRIES, _ => 0)

  /** The frame `memset` leaves. */
  function ZeroFrame(): (f: Frame)
    ensures forall i: nat :: i < ENTRIES ==> f[i] == 0
  {
    seq(ENTRIES, _ => 0)
  }

  class Memory {
    const words: array2<Word>

    constructor (frames: nat)
      ensures Valid() && |View()| == frames && fresh(words)
    {
      words := new Word[frames, ENTRIES]((_, _) => 0);
    }

    ghost predicate Valid() { words.Length1 == ENTRIES }

    ghost function Row(f: nat): (r: Frame)
      requires Valid() && f < words.Length0
      reads words
      ensures forall i: nat :: i < ENTRIES ==> r[i] == words[f, i]
    {
      seq(ENTRIES, i requires 0 <= i < ENTRIES reads words => words[f, i])
    }

    /** All of memory as a value. */
    ghost function View(): (v: seq<Frame>)
      requires Valid()
      reads words
      ensures |v| == words.Length0
    {
      seq(words.Length0, f requires 0 <= f < words.Length0 reads words => Row(f))
    }

    method At(t: nat, idx: nat) returns (w: Word)
      requires Valid() && t < |View()| && idx < ENTRIES
      ensures w == View()[t][idx]
    {
      w := words[t, idx];
    }

    method IsEntryPresent(t: nat, idx: nat) returns (r: bool)
      requires Valid() && t < |View()| && idx < ENTRIES
      ensures r == Present(View()[t][idx])
    {
      r := Present(words[t, idx]);
    }

    method Set(t: nat, idx: nat, value: Word)
      requires Valid() && t < |View()| && idx < ENTRIES
      modifies words
      ensures View() == old(View())[t := old(View())[t][idx := value]]
    {
      words[t, idx] := value;
      assert View()[t] == old(View())[t][idx := value];
      assert forall f: nat :: f < |View()| && f != t ==> View()[f] == old(View())[f];
    }

    method Clear(t: nat, idx: nat)
      requires Valid() && t < |View()| && idx < ENTRIES
      modifies words
      ensures View() == old(View())[t := old(View())[t][idx := 0]]
    {
      Set(t, idx, 0);
    }

    /** `memset(frame, 0, PAGE_SIZE)` */
    method Zero(t: nat)
      requires Valid() && t < |View()|
      modifies words
      ensures View() == old(View())[t := ZeroFrame()]
    {
      var i := 0;
      while i < ENTRIES
        invariant i <= ENTRIES
        invariant forall k: nat :: k < i ==> words[t, k] == 0
        invariant forall f: nat, k: nat ::
          f < words.Length0 && k < ENTRIES && f != t ==> words[f, k] == old(words[f, k])
      {
        words[t, i] := 0;
        i := i + 1;
      }
      assert View()[t] == ZeroFrame();
      assert forall f: nat :: f < |View()| && f != t ==> View()[f] == old(View())[f];
    }

    /** `memcpy(dest, src, PAGE_SIZE)` */
    method Copy(dest: nat, src: nat)
      requires Valid() && dest < |View()| && src < |View()|
      modifies words
      ensures View() == old(View())[dest := old(View())[src]]
    {
      var i := 0;
      while i < ENTRIES
        invariant i <= ENTRIES
        invariant forall k: nat :: k < i ==> words[dest, k] == old(words[src, k])
        invariant forall k: nat :: i <= k < ENTRIES ==> words[dest, k] == old(words[dest, k])
        invariant forall f: nat, k: nat ::
          f < words.Length0 && k < ENTRIES && f != dest ==> words[f, k] == old(words[f, k])
      {
        words[dest, i] := words[src, i];
        i := i + 1;
      }
      assert View()[dest] == old(View())[src];
      assert forall f: nat :: f < |View()| && f != dest ==> View()[f] == old(View())[f];
    }
  }
}
