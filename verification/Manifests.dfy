/** Structural checks on a manifest (modules/format/src/manifest.cpp). That a full entry has a block and depth 0 and a
    delta entry a base and an artifact is built into the record. */
module Manifests {
  import opened Records

  /** The buffer entries follow each other without gap up to the end of the file, none is empty, all groups are known.
      */
  ghost predicate WellLaid(m: Manifest) {
    && m.buffer != []
    && (forall i :: 0 <= i < |m.buffer| ==> m.buffer[i].nbytes > 0 && m.buffer[i].group in m.groups)
    && (forall i :: 0 < i < |m.buffer| ==> m.buffer[i].off == m.buffer[i - 1].off + m.buffer[i - 1].nbytes)
    && m.totalBytes == m.buffer[|m.buffer| - 1].off + m.buffer[|m.buffer| - 1].nbytes
  }

  /** validate: accepts exactly the well-laid manifests. */
  method Validate(m: Manifest) returns (ok: bool)
    ensures ok <==> WellLaid(m)
  {
    if m.buffer == [] {
      return false;
    }
    var cursor, i := m.buffer[0].off, 0;
    while i < |m.buffer|
      invariant 0 <= i <= |m.buffer|
      invariant cursor == if i == 0 then m.buffer[0].off else m.buffer[i - 1].off + m.buffer[i - 1].nbytes
      invariant forall k :: 0 <= k < i ==> m.buffer[k].nbytes > 0 && m.buffer[k].group in m.groups
      invariant forall k :: 0 < k < i ==> m.buffer[k].off == m.buffer[k - 1].off + m.buffer[k - 1].nbytes
    {
      var e := m.buffer[i];
      if e.off != cursor || e.nbytes == 0 || e.group !in m.groups {
        return false;
      }
      cursor := cursor + e.nbytes;
      i := i + 1;
    }
    return cursor == m.totalBytes;
  }
}
