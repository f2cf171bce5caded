/** The list logic of `get_source` and `add_source` in `ynam/config.py`: the
    `sources` array of the configuration, looked up and upserted by name. Reading and
    writing the TOML file around it is left out; the array is passed in and the new
    array handed back. */
module Config {
  import opened Wrappers
  import opened Dicts

  /** A source table. Its `name` key may be missing; its other settings (bank,
      token, CSV mapping, ...) are carried along untouched. */
  datatype Source = Source(name: Option<string>, settings: Dict<string>)

  /** An element of the `sources` array: a table, or some other TOML value. */
  datatype Entry = Table(source: Source) | NotTable

  /** `isinstance(e, dict) and e.get("name") == name`. */
  predicate Named(e: Entry, name: Option<string>) {
    e.Table? && e.source.name == name
  }

  /** `get_source`: the first table named `name`; entries that are not tables are
      skipped. */
  function GetSource(sources: seq<Entry>, name: string): (r: Option<Source>)
    ensures r.None? <==> forall i :: 0 <= i < |sources| ==> !Named(sources[i], Some(name))
    ensures r.Some? ==> exists i :: && 0 <= i < |sources|
                                    && sources[i] == Table(r.value)
                                    && r.value.name == Some(name)
                                    && forall j :: 0 <= j < i ==> !Named(sources[j], Some(name))
  {
    if |sources| == 0 then None
    else if Named(sources[0], Some(name)) then
      assert sources[0] == Table(sources[0].source);
      Some(sources[0].source)
    else
      var r := GetSource(sources[1..], name);
      assert forall i :: 1 <= i < |sources| ==> sources[i] == sources[1..][i - 1];
      r
  }

  /** Where the loop of `add_source` stops: at the first entry whose name equals
      `name` or that is not a table (where `.get` raises), or past the end. */
  function StopIndex(sources: seq<Entry>, name: Option<string>): (i: nat)
    ensures i <= |sources|
    ensures forall j :: 0 <= j < i ==> sources[j].Table? && !Named(sources[j], name)
    ensures i < |sources| ==> sources[i].NotTable? || Named(sources[i], name)
  {
    if |sources| == 0 || sources[0].NotTable? || Named(sources[0], name) then 0
    else
      var k := StopIndex(sources[1..], name);
      assert forall j :: 1 <= j < k + 1 ==> sources[j] == sources[1..][j - 1];
      k + 1
  }

  /** `add_source`: the first table with the same name is replaced in place, or the
      source is appended when there is none. None stands for the `AttributeError`
      raised when the scan reaches an entry that is not a table. */
  function AddSource(sources: seq<Entry>, source: Source): (r: Option<seq<Entry>>)
    ensures var i := StopIndex(sources, source.name);
      && (r.None? <==> i < |sources| && sources[i].NotTable?)
      && (r.Some? && i < |sources| ==> r.value == sources[..i] + [Table(source)] + sources[i + 1..])
      && (r.Some? && i == |sources| ==> r.value == sources + [Table(source)])
  {
    if |sources| == 0 then Some([Table(source)])
    else if sources[0].NotTable? then None
    else if Named(sources[0], source.name) then
      Some([Table(source)] + sources[1..])
    else
      match AddSource(sources[1..], source)
      case None => None
      case Some(rest) =>
        var i := StopIndex(sources[1..], source.name);
        assert sources == [sources[0]] + sources[1..];
        assert i < |sources[1..]| ==> [sources[0]] + sources[1..][..i] == sources[..i + 1];
        Some([sources[0]] + rest)
  }

  /** Replacing keeps the length and appending adds one entry; every other entry
      keeps its value and position. */
  lemma AddSourceShape(sources: seq<Entry>, source: Source)
    requires AddSource(sources, source).Some?
    ensures var r := AddSource(sources, source).value;
      && (|r| == |sources| <==> exists i :: 0 <= i < |sources| && Named(sources[i], source.name))
      && (|r| == |sources| + 1 <==> forall i :: 0 <= i < |sources| ==> !Named(sources[i], source.name))
      && (forall j :: 0 <= j < |sources| && j != StopIndex(sources, source.name) ==> r[j] == sources[j])
  {
    var i := StopIndex(sources, source.name);
    var r := AddSource(sources, source).value;
    if i < |sources| {
      assert Named(sources[i], source.name);
      forall j | 0 <= j < |sources| && j != i ensures r[j] == sources[j] {
        if j > i {
          assert r[j] == sources[i + 1..][j - i - 1];
        }
      }
    }
  }

  /** After `add_source(s)`, `get_source` of its name finds `s`. */
  lemma GetAfterAdd(sources: seq<Entry>, source: Source, name: string)
    requires AddSource(sources, source).Some?
    requires source.name == Some(name)
    ensures GetSource(AddSource(sources, source).value, name) == Some(source)
  {
    var r := AddSource(sources, source).value;
    var i := StopIndex(sources, source.name);
    assert r[i] == Table(source);
    forall j | 0 <= j < i ensures !Named(r[j], Some(name)) {
      assert r[j] == sources[j];
    }
    FirstNamedFound(r, name, i);
  }

  /** The table at position `i`, with no table of that name before it, is the one
      `GetSource` returns. */
  lemma {:induction false} FirstNamedFound(sources: seq<Entry>, name: string, i: int)
    requires 0 <= i < |sources| && Named(sources[i], Some(name))
    requires forall j :: 0 <= j < i ==> !Named(sources[j], Some(name))
    ensures GetSource(sources, name) == Some(sources[i].source)
    decreases i
  {
    if i > 0 {
      FirstNamedFound(sources[1..], name, i - 1);
    }
  }

  /** Adding the same source twice leaves the list as adding it once. */
  lemma AddSourceIdempotent(sources: seq<Entry>, source: Source)
    requires AddSource(sources, source).Some?
    ensures AddSource(AddSource(sources, source).value, source) == AddSource(sources, source)
  {
    var r := AddSource(sources, source).value;
    var i := StopIndex(sources, source.name);
    assert r[i] == Table(source);
    assert forall j :: 0 <= j < i ==> r[j] == sources[j];
    StopAtNamed(r, source.name, i);
    assert r[..i] == sources[..i];
    if i < |sources| {
      assert r[i + 1..] == sources[i + 1..];
    } else {
      assert r[i + 1..] == [];
    }
    assert r == r[..i] + [Table(source)] + r[i + 1..];
  }

  /** Tables with other names up to a table with this name: the scan stops there. */
  lemma {:induction false} StopAtNamed(sources: seq<Entry>, name: Option<string>, i: int)
    requires 0 <= i < |sources| && Named(sources[i], name)
    requires forall j :: 0 <= j < i ==> sources[j].Table? && !Named(sources[j], name)
    ensures StopIndex(sources, name) == i
    decreases i
  {
    if i > 0 {
      StopAtNamed(sources[1..], name, i - 1);
    }
  }
}
