/** The growing, NUL-terminated character buffer that every printer appends to. */
module Builder {

  class TextBuilder {
    var text: array<char>
    var size: nat

    /** The first allocation: 128 to 1024 characters, depending on the printer. */
    const initialCapacity: nat

    ghost predicate Valid()
      reads this, text
    {
      && initialCapacity > 0
      && (if text.Length == 0 then size == 0 else size < text.Length && text[size] == '\0')
    }

    ghost function Contents(): string
      reads this, text
      requires Valid()
    {
      text[..size]
    }

    constructor (initialCapacity: nat)
      requires initialCapacity > 0
      ensures Valid() && fresh(text) && Contents() == ""
    {
      this.initialCapacity := initialCapacity;
      text := new char[0];
      size := 0;
    }

    /** Doubles the capacity until `additional` characters and a terminator fit. */
    method Reserve(additional: nat)
      requires Valid()
      modifies this
      ensures text == old(text) || fresh(text)
      ensures size == old(size) && size + additional < text.Length
      ensures text[..size] == old(text[..size])
    {
      var required := size + additional + 1;
      if required <= text.Length {
        return;
      }
      var capacity := if text.Length == 0 then initialCapacity else text.Length;
      while capacity < required
        invariant capacity > 0
        modifies {}
        decreases required - capacity
      {
        capacity := capacity * 2;
      }
      var bigger := new char[capacity](_ => '\0');
      for i := 0 to size
        invariant bigger.Length == capacity && bigger[..i] == text[..i]
        modifies bigger
      {
        bigger[i] := text[i];
      }
      text := bigger;
    }

    method Append(s: string)
      requires Valid()
      modifies this, text
      ensures Valid() && (text == old(text) || fresh(text))
      ensures Contents() == old(Contents()) + s
    {
      Reserve(|s|);
      ghost var before := text[..size];
      forall i | 0 <= i < |s| {
        text[size + i] := s[i];
      }
      assert text[..size + |s|] == before + s;
      size := size + |s|;
      text[size] := '\0';
    }

    /** The finished text. */
    method Text() returns (s: string)
      requires Valid()
      ensures s == Contents()
    {
      s := text[..size];
    }

    method AppendChar(c: char)
      requires Valid()
      modifies this, text
      ensures Valid() && (text == old(text) || fresh(text))
      ensures Contents() == old(Contents()) + [c]
    {
      Append([c]);
    }
  }
}
