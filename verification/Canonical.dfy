/** The archive a sequential writer produces: every local header followed by its body. */
module Canonical {
  import opened Bytes

  /** One entry of the body region. */
  datatype Local = Local(header: Octets, body: Octets)

  function Region(locals: seq<Local>): Octets {
    if locals == [] then [] else locals[0].header + locals[0].body + Region(locals[1..])
  }

  /** Where the header of entry `i` starts. */
  function OffsetOf(locals: seq<Local>, i: nat): nat
    requires i <= |locals|
  {
    |Region(locals[..i])|
  }

  lemma {:induction false} RegionConcat(a: seq<Local>, b: seq<Local>)
    ensures Region(a + b) == Region(a) + Region(b)
  {
    if a == [] {
      assert a + b == b;
    } else {
      assert (a + b)[1..] == a[1..] + b;
      RegionConcat(a[1..], b);
    }
  }

  lemma RegionAppend(a: seq<Local>, x: Local)
    ensures Region(a + [x]) == Region(a) + x.header + x.body
  {
    RegionConcat(a, [x]);
    assert [x][1..] == [];
  }

  /** Every entry's header and body stand at the entry's offset. */
  lemma RegionAt(locals: seq<Local>, i: nat)
    requires i < |locals|
    ensures OffsetOf(locals, i) <= |Region(locals)|
    ensures Region(locals)[OffsetOf(locals, i)..]
         == locals[i].header + locals[i].body + Region(locals[i + 1..])
  {
    assert locals == locals[..i] + locals[i..];
    RegionConcat(locals[..i], locals[i..]);
  }

  lemma OffsetStep(locals: seq<Local>, i: nat)
    requires i < |locals|
    ensures OffsetOf(locals, i + 1) == OffsetOf(locals, i) + |locals[i].header| + |locals[i].body|
  {
    assert locals[..i + 1] == locals[..i] + [locals[i]];
    RegionAppend(locals[..i], locals[i]);
  }
}
