/** An octet-string column held in a fixed array beside its length, as the ESP column of
    bridge/ieee8021PbbTeMib.c: RESERVE1 bounds the new value, ACTION saves the whole array
    and overwrites it in place, UNDO copies back only the saved length. */
module OctetColumn {

  type byte = b: int | 0 <= b < 256

  /** The column as a value: every byte of the array, and how many of them count. */
  datatype Octets = Octets(bytes: seq<byte>, len: nat) {
    predicate Valid() {
      len <= |bytes|
    }

    /** What GET shows. */
    function Value(): seq<byte>
      requires Valid()
    {
      bytes[..len]
    }

    /** memset, then memcpy of the new value. */
    function Assigned(s: seq<byte>): Octets
      requires |s| <= |bytes|
    {
      Octets(s + seq(|bytes| - |s|, _ => 0), |s|)
    }

    /** memcpy of the saved length from the saved array. */
    function Restored(saved: Octets): Octets
      requires saved.Valid() && |saved.bytes| == |bytes|
    {
      Octets(saved.bytes[..saved.len] + bytes[saved.len..], saved.len)
    }
  }

  class Column {
    const data: array<byte>
    var len: nat

    ghost predicate Valid()
      reads this
    {
      len <= data.Length
    }

    ghost function View(): Octets
      reads this, data
    {
      Octets(data[..], len)
    }

    constructor (capacity: nat)
      ensures Valid() && View() == Octets(seq(capacity, _ => 0), 0) && fresh(data)
    {
      data := new byte[capacity](_ => 0);
      len := 0;
    }

    /** ACTION's copy into the rollback buffer. */
    method Save() returns (saved: Octets)
      requires Valid()
      ensures saved == View()
    {
      saved := Octets(data[..], len);
    }

    method Assign(s: seq<byte>)
      requires Valid() && |s| <= data.Length
      modifies this, data
      ensures Valid() && View() == old(View()).Assigned(s)
    {
      for i := 0 to data.Length
        invariant forall j | 0 <= j < i :: data[j] == 0
      {
        data[i] := 0;
      }
      for i := 0 to |s|
        invariant forall j | 0 <= j < data.Length :: data[j] == if j < i then s[j] else 0
      {
        data[i] := s[i];
      }
      len := |s|;
    }

    method Undo(saved: Octets)
      requires Valid() && saved.Valid() && |saved.bytes| == data.Length
      modifies this, data
      ensures Valid() && View() == old(View()).Restored(saved)
    {
      for i := 0 to saved.len
        invariant forall j | 0 <= j < data.Length :: data[j] == if j < i then saved.bytes[j] else old(data[j])
      {
        data[i] := saved.bytes[i];
      }
      len := saved.len;
    }

    /** One SET of the column: RESERVE1's size check, ACTION, then UNDO unless it commits.
        The shown value is the new one if the SET commits and the old one otherwise. */
    method Set(s: seq<byte>, commit: bool) returns (accepted: bool)
      requires Valid()
      modifies this, data
      ensures Valid() && accepted == (|s| <= data.Length)
      ensures View() == After(old(View()), Attempt(s, commit))
      ensures View().Value() == if accepted && commit then s else old(View().Value())
    {
      accepted := |s| <= data.Length;
      if accepted {
        var saved := Save();
        Assign(s);
        if !commit {
          Undo(saved);
        }
      }
    }
  }

  // ---- Any run of SETs ----------------------------------------------------------------------

  datatype Attempt = Attempt(value: seq<byte>, commit: bool)

  function After(c: Octets, a: Attempt): (d: Octets)
    requires c.Valid()
    ensures d.Valid() && |d.bytes| == |c.bytes|
    ensures d.Value() == if |a.value| <= |c.bytes| && a.commit then a.value else c.Value()
  {
    if |a.value| > |c.bytes| then c
    else if a.commit then c.Assigned(a.value)
    else c.Assigned(a.value).Restored(c)
  }

  /** UNDO brings the whole array back, not only the shown value, just when the bytes past the
      old length were those the new value had put there. */
  lemma ArrayRestoredIff(c: Octets, s: seq<byte>)
    requires c.Valid() && |s| <= |c.bytes|
    ensures After(c, Attempt(s, false)) == c
       <==> forall i | c.len <= i < |c.bytes| :: c.bytes[i] == if i < |s| then s[i] else 0
  {
  }

  function Run(c: Octets, events: seq<Attempt>): (d: Octets)
    requires c.Valid()
    ensures d.Valid() && |d.bytes| == |c.bytes|
  {
    if events == [] then c else
      After(Run(c, events[..|events| - 1]), events[|events| - 1])
  }

  function LastCommitted(capacity: nat, first: seq<byte>, events: seq<Attempt>): seq<byte> {
    if events == [] then first else
      var e := events[|events| - 1];
      if |e.value| <= capacity && e.commit then e.value else LastCommitted(capacity, first, events[..|events| - 1])
  }

  /** Over any run of accepted, refused and undone SETs GET shows the last value committed,
      whatever the undone ones left in the tail of the array. */
  lemma {:induction false} RunShowsLastCommitted(c: Octets, events: seq<Attempt>)
    requires c.Valid()
    ensures Run(c, events).Value() == LastCommitted(|c.bytes|, c.Value(), events)
  {
    if events != [] {
      RunShowsLastCommitted(c, events[..|events| - 1]);
    }
  }
}
