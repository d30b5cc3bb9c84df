/** The growable buffer behind Vector and String.

    The two classes run the same code; a String allocates one element more, for its terminator.
 */
module Growable {
  import Kmp

  // The element-by-element copy loop of Reserve, Append and operator+. The two arrays may be one.
  method CopyInto<T>(from: array<T>, n: nat, to: array<T>, offset: nat)
    requires n <= from.Length && offset + n <= to.Length && (from != to || n <= offset)
    modifies to
    ensures to[..] == old(to[..offset]) + old(from[..n]) + old(to[offset + n..])
  {
    var index := 0;
    while index < n
      invariant 0 <= index <= n && from[..n] == old(from[..n])
      invariant to[..offset] == old(to[..offset]) && to[offset + n..] == old(to[offset + n..])
      invariant to[offset..offset + index] == old(from[..index])
    {
      to[index + offset] := from[index];
      index := index + 1;
    }
  }

  class Buffer<T(0, ==)> {
    const zero: T      // T()
    const slack: nat   // 0 for Vector, 1 for String
    var size: nat
    var elements: array?<T>
    var space: nat
    ghost var copied: nat   // elements moved by reallocation so far

    ghost predicate Valid()
      reads this
    {
      && size <= space
      && (elements == null ==> space == 0)
      && (elements != null ==> elements.Length == space + slack)
    }

    ghost function Contents(): (s: seq<T>)
      requires Valid()
      reads this, elements
      ensures |s| == size
    {
      if elements == null then [] else elements[..size]
    }

    // Under PushBack and PopBack alone each element of the space past the first eight was paid for once.
    ghost predicate Paid()
      reads this
    {
      if space == 0 then copied == 0 else copied + 8 == space
    }

    constructor (zero: T, slack: nat)
      ensures Valid() && Contents() == [] && Paid() && elements == null
      ensures this.zero == zero && this.slack == slack
    {
      this.zero, this.slack := zero, slack;
      size, elements, space, copied := 0, null, 0, 0;
    }

    method Reserve(newSize: nat)
      requires Valid()
      modifies this`elements, this`space, this`copied
      ensures Valid() && Contents() == old(Contents())
      ensures space == if newSize <= old(space) then old(space) else newSize
      ensures copied == old(copied) + (if newSize <= old(space) then 0 else size)
      ensures elements == old(elements) || fresh(elements)
      ensures newSize > 0 ==> elements != null
    {
      if newSize <= space {
        return;
      }
      var p := new T[newSize + slack](_ => zero);
      if elements != null {
        CopyInto(elements, size, p, 0);
      }
      copied := copied + size;
      elements := p;
      space := newSize;
    }

    method PushBack(d: T)
      requires Valid()
      modifies this, elements
      ensures Valid() && Contents() == old(Contents()) + [d]
      ensures old(Paid()) ==> Paid()
      ensures space == if old(space) == 0 then 8 else if old(size) == old(space) then 2 * old(space) else old(space)
      ensures elements == old(elements) || fresh(elements)
    {
      if space == 0 {
        Reserve(8);
      } else if size == space {
        Reserve(2 * space);
      }
      elements[size] := d;
      size := size + 1;
    }

    method PopBack()
      requires Valid()
      modifies this`size, elements
      ensures Valid() && space == old(space) && copied == old(copied)
      ensures Contents() == if old(size) == 0 then [] else old(Contents())[..old(size) - 1]
    {
      if size == 0 {
        return;
      }
      elements[size - 1] := zero;
      size := size - 1;
    }

    // v may be this very buffer; the loop then reads what Reserve has just moved.
    method Append(v: Buffer<T>)
      requires Valid() && v.Valid() && (v != this ==> v.elements == null || v.elements != elements)
      modifies this, elements
      ensures Valid() && Contents() == old(Contents()) + old(v.Contents())
      ensures v != this ==> v.Valid() && v.Contents() == old(v.Contents())
    {
      Reserve((if v.size > size then v.size else size) * 2);
      if v.elements != null && elements != null {
        CopyInto(v.elements, v.size, elements, size);
      }
      size := size + v.size;
    }

    method Resize(newSize: nat)
      requires Valid()
      modifies this, elements
      ensures Valid() && size == newSize && (elements == old(elements) || fresh(elements))
      ensures Contents() == if newSize <= old(size) then old(Contents())[..newSize]
                            else old(Contents()) + seq(newSize - old(size), _ => zero)
      ensures newSize > 0 ==> elements != null
    {
      Reserve(newSize);
      ghost var was := Contents();
      var index := size;
      while index < newSize
        invariant size <= index <= space && (size <= newSize ==> index <= newSize)
        invariant elements != null ==> elements[..size] == was
        invariant forall i :: size <= i < index ==> elements[i] == zero
        modifies elements
      {
        elements[index] := zero;
        index := index + 1;
      }
      size := newSize;
    }

    // operator+
    method Plus(v: Buffer<T>) returns (res: Buffer<T>)
      requires Valid() && v.Valid()
      ensures fresh(res) && res.Valid() && res.Contents() == Contents() + v.Contents()
    {
      res := new Buffer(zero, slack);
      res.Reserve((if v.size > size then v.size else size) * 2);
      res.Resize(v.size + size);
      if elements != null && res.elements != null {
        CopyInto(elements, size, res.elements, 0);
      }
      assert res.elements != null ==> res.elements[..size] == Contents();
      if v.elements != null && res.elements != null {
        CopyInto(v.elements, v.size, res.elements, size);
      }
    }

    // The last element takes the place of the erased one.
    method EraseUnordered(i: nat) returns (erased: bool)
      requires Valid()
      modifies this`size, elements
      ensures Valid() && erased == (i < old(size))
      ensures !erased ==> Contents() == old(Contents())
      ensures erased ==>
        var was := old(Contents()); Contents() == was[i := was[|was| - 1]][..|was| - 1]
    {
      if i >= size {
        return false;
      }
      if size == 1 {
        elements[0] := zero;
        size := size - 1;
        return true;
      }
      elements[i] := elements[size - 1];
      elements[size - 1] := zero;
      size := size - 1;
      return true;
    }

    method IsPrefixOf(str: Buffer<T>) returns (r: bool)
      requires Valid() && str.Valid()
      ensures r == (elements != null && str.elements != null && Contents() <= str.Contents())
    {
      if size > str.size {
        return false;
      }
      if elements == null || str.elements == null {
        return false;
      }
      var i := 0;
      while i < size
        invariant 0 <= i <= size && elements[..i] == str.elements[..i]
      {
        if elements[i] != str.elements[i] {
          assert Contents()[i] != str.Contents()[i];
          return false;
        }
        i := i + 1;
      }
      return true;
    }

    // A longer string occurs nowhere.
    lemma TooShort(str: Buffer<T>)
      requires Valid() && str.Valid() && str.size > 0 && size <= 0xFFFF_FFFF_FFFF_FFFF
      ensures size < str.size ==>
        Kmp.NaiveFind(Contents(), str.Contents(), 0) == -1 && Kmp.Tells(Contents(), str.Contents(), Kmp.NPOS)
    {
      if size < str.size {
        Kmp.NaiveFindNot(Contents(), str.Contents(), 0);
        Kmp.AnswerTells(Contents(), str.Contents(), Kmp.NPOS);
      }
    }

    // Agrees with trying every start in turn; an unallocated operand is never found.
    method Find(str: Buffer<T>) returns (r: nat)
      requires Valid() && str.Valid() && (elements != null && str.elements != null ==> str.size > 0)
      ensures elements == null || str.elements == null ==> r == Kmp.NPOS
      ensures elements != null && str.elements != null ==>
        var n := Kmp.NaiveFind(Contents(), str.Contents(), 0); r == if n == -1 then Kmp.NPOS else n
      ensures elements == null || str.elements == null ==> r == 0xFFFF_FFFF_FFFF_FFFF
      ensures elements != null && str.elements != null && size <= 0xFFFF_FFFF_FFFF_FFFF ==>
        Kmp.Tells(Contents(), str.Contents(), r)
    {
      if elements != null && str.elements != null && size <= 0xFFFF_FFFF_FFFF_FFFF {
        TooShort(str);
      }
      if size < str.size {
        return Kmp.NPOS;
      }
      if elements == null || str.elements == null {
        return Kmp.NPOS;
      }
      var matcher := new Kmp.Matcher(elements, size, str.elements, str.size);
      ghost var steps;
      r, steps := matcher.KmpSearch();
    }
  }

  // What an unordered erase does to the contents: the erased element goes, nothing else does.
  lemma UnorderedKeepsTheRest<T>(s: seq<T>, i: nat)
    requires i < |s|
    ensures multiset(s[i := s[|s| - 1]][..|s| - 1]) + multiset{s[i]} == multiset(s)
  {
    var last := |s| - 1;
    var t := s[i := s[last]];
    assert s == s[..last] + [s[last]];
    if i < last {
      assert s[..last] == s[..i] + [s[i]] + s[i + 1..last];
      assert t[..last] == s[..i] + [s[last]] + s[i + 1..last];
    } else {
      assert t[..last] == s[..last];
    }
  }

  // n pushes on an empty buffer yield what was pushed, and all reallocations together copy fewer than 2n elements.
  method PushAll<T(0, ==)>(zero: T, slack: nat, xs: seq<T>) returns (v: Buffer<T>)
    ensures v.Valid() && v.Contents() == xs
    ensures xs != [] ==> v.copied < 2 * |xs|
    ensures xs == [] ==> v.copied == 0
  {
    v := new Buffer(zero, slack);
    var i := 0;
    while i < |xs|
      invariant 0 <= i <= |xs| && fresh(v) && v.Valid() && v.Contents() == xs[..i] && v.Paid()
      invariant v.elements != null ==> fresh(v.elements)
      invariant if i == 0 then v.space == 0 else v.space == 8 || v.space <= 2 * (i - 1)
    {
      v.PushBack(xs[i]);
      assert xs[..i + 1] == xs[..i] + [xs[i]];
      i := i + 1;
    }
    assert xs[..|xs|] == xs;
  }
}
