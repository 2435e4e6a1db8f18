/** `WriterRegistry`: writers stored by name and a default writer. A PHP
    array remembers the order in which its keys were first inserted, and
    `QrCode::setWriterByExtension` iterates in that order, so the registry keeps
    the names in insertion order beside the map. */
module Registry {
  import opened Errors
  import opened Writers

  /** The abstract content of `$writers`: keys in insertion order and the map. */
  datatype Table = Table(names: seq<string>, writers: map<string, Writer>)

  ghost predicate Distinct(names: seq<string>) {
    forall i, j :: 0 <= i < j < |names| ==> names[i] != names[j]
  }

  ghost predicate WellFormed(t: Table) {
    Distinct(t.names) && forall n :: n in t.writers <==> n in t.names
  }

  /** `$this->writers[$writer->getName()] = $writer`: a new name goes last, a
      known name keeps its place and gets the new writer. */
  function Add(t: Table, w: Writer): (u: Table)
    requires WellFormed(t)
    ensures WellFormed(u)
    ensures u.writers == t.writers[w.name := w]
    ensures w.name in t.writers ==> u.names == t.names
    ensures w.name !in t.writers ==> u.names == t.names + [w.name]
  {
    if w.name in t.writers then Table(t.names, t.writers[w.name := w])
    else Table(t.names + [w.name], t.writers[w.name := w])
  }

  /** `addWriters`: `addWriter` on each writer in turn. */
  function AddAll(t: Table, ws: seq<Writer>): (u: Table)
    requires WellFormed(t)
    ensures WellFormed(u)
  {
    if ws == [] then t else Add(AddAll(t, ws[..|ws| - 1]), ws[|ws| - 1])
  }

  /** The writers of a table in iteration order (`getWriters`). */
  function InOrder(t: Table): (ws: seq<Writer>)
    requires WellFormed(t)
    ensures |ws| == |t.names|
    ensures forall i :: 0 <= i < |ws| ==> ws[i] == t.writers[t.names[i]]
  {
    seq(|t.names|, i requires 0 <= i < |t.names| => t.writers[t.names[i]])
  }

  /** After `addWriters`, a name holds the last writer of that name in the
      list. */
  lemma {:induction false} AddAllLastWins(t: Table, ws: seq<Writer>, j: nat)
    requires WellFormed(t)
    requires j < |ws|
    requires forall k :: j < k < |ws| ==> ws[k].name != ws[j].name
    ensures ws[j].name in AddAll(t, ws).writers && AddAll(t, ws).writers[ws[j].name] == ws[j]
  {
    var init := ws[..|ws| - 1];
    if j < |ws| - 1 {
      assert ws[|ws| - 1].name != ws[j].name;
      assert init[j] == ws[j];
      assert forall k :: j < k < |init| ==> init[k] == ws[k];
      AddAllLastWins(t, init, j);
    }
  }

  /** A name the list does not mention keeps what it had. */
  lemma {:induction false} AddAllKeepsOthers(t: Table, ws: seq<Writer>, n: string)
    requires WellFormed(t)
    requires forall k :: 0 <= k < |ws| ==> ws[k].name != n
    ensures n in AddAll(t, ws).writers <==> n in t.writers
    ensures n in t.writers ==> AddAll(t, ws).writers[n] == t.writers[n]
  {
    if ws != [] {
      var init := ws[..|ws| - 1];
      assert forall k :: 0 <= k < |init| ==> init[k] == ws[k];
      assert ws[|ws| - 1].name != n;
      AddAllKeepsOthers(t, init, n);
    }
  }

  lemma {:induction false} AddAllNamesKnown(t: Table, ws: seq<Writer>, n: string)
    requires WellFormed(t)
    requires n in t.writers
    ensures n in AddAll(t, ws).writers
  {
    if ws != [] {
      AddAllNamesKnown(t, ws[..|ws| - 1], n);
    }
  }

  /** Registering names that are all known already leaves the iteration order
      unchanged: replacement happens in place. */
  lemma {:induction false} AddAllKnownKeepsOrder(t: Table, ws: seq<Writer>)
    requires WellFormed(t)
    requires forall k :: 0 <= k < |ws| ==> ws[k].name in t.writers
    ensures AddAll(t, ws).names == t.names
  {
    if ws != [] {
      var init := ws[..|ws| - 1];
      assert forall k :: 0 <= k < |init| ==> init[k] == ws[k];
      AddAllKnownKeepsOrder(t, init);
      AddAllNamesKnown(t, init, ws[|ws| - 1].name);
    }
  }

  class WriterRegistry {
    var names: seq<string>
    var writers: map<string, Writer>
    var defaultWriter: Option<Writer>

    function Contents(): Table
      reads this
    {
      Table(names, writers)
    }

    ghost predicate Valid()
      reads this
    {
      WellFormed(Contents())
    }

    constructor ()
      ensures Valid()
      ensures names == [] && writers == map[] && defaultWriter == None
    {
      names := [];
      writers := map[];
      defaultWriter := None;
    }

    /** `getWriters`, in insertion order. */
    function GetWriters(): seq<Writer>
      reads this
      requires Valid()
    {
      InOrder(Contents())
    }

    method AddWriter(w: Writer)
      requires Valid()
      modifies this`names, this`writers
      ensures Valid()
      ensures Contents() == Add(old(Contents()), w)
    {
      if w.name !in writers {
        names := names + [w.name];
      }
      writers := writers[w.name := w];
    }

    method AddWriters(ws: seq<Writer>)
      requires Valid()
      modifies this`names, this`writers
      ensures Valid()
      ensures Contents() == AddAll(old(Contents()), ws)
    {
      var i := 0;
      while i < |ws|
        invariant 0 <= i <= |ws|
        invariant Valid()
        invariant Contents() == AddAll(old(Contents()), ws[..i])
      {
        assert ws[..i + 1][..i] == ws[..i];
        AddWriter(ws[i]);
        i := i + 1;
      }
      assert ws[..i] == ws;
    }

    /** `getWriter`: the stored writer, or `InvalidException` for an
        unknown name. */
    function GetWriter(name: string): (r: Result<Writer>)
      reads this
      ensures name in writers ==> r == Ok(writers[name])
      ensures name !in writers ==> r == Err(InvalidException)
    {
      if name in writers then Ok(writers[name]) else Err(InvalidException)
    }

    /** `getDefaultWriter`: `InvalidException` until a default is set. */
    function GetDefaultWriter(): (r: Result<Writer>)
      reads this
      ensures defaultWriter.Some? ==> r == Ok(defaultWriter.value)
      ensures defaultWriter.None? ==> r == Err(InvalidException)
    {
      match defaultWriter
      case Some(w) => Ok(w)
      case None => Err(InvalidException)
    }

    /** `setDefaultWriter`: `$this->writers[$name]`; an unknown name reads as
        null (with a notice), which leaves no default. */
    method SetDefaultWriter(name: string)
      modifies this`defaultWriter
      ensures defaultWriter == if name in writers then Some(writers[name]) else None
    {
      if name in writers {
        defaultWriter := Some(writers[name]);
      } else {
        defaultWriter := None;
      }
    }

    /** `loadDefaultWriters`: on an empty registry, the PNG writer alone,
        made the default; otherwise nothing. Afterwards the registry is never
        empty, so a second call changes nothing. */
    method LoadDefaultWriters()
      requires Valid()
      modifies this
      ensures Valid()
      ensures old(|names|) > 0 ==>
        names == old(names) && writers == old(writers) && defaultWriter == old(defaultWriter)
      ensures old(|names|) == 0 ==>
        names == ["png"] && writers == map["png" := Png] && defaultWriter == Some(Png)
      ensures |names| > 0
    {
      if |names| > 0 {
        return;
      }
      assert writers == map[] by {
        assert forall n :: n !in writers;
      }
      AddWriters([Png]);
      assert AddAll(Table([], map[]), [Png]) == Table(["png"], map["png" := Png]) by {
        assert [Png][..0] == [];
      }
      SetDefaultWriter("png");
    }
  }
}
