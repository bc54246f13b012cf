/** The payload contract between the indexers and the filters: the reserved field
    names, the tag and property prefixes, and what writing a dictionary under a
    prefix does to a point's payload. */
module Payload {
  import opened Strings

  /** A payload value: the string and integer kinds of a Qdrant `Value`. */
  datatype Value = Str(s: string) | Int(i: int)

  /** A point's payload: field name to value. Writing a field overwrites it. */
  type PayloadMap = map<string, Value>

  /** A `Dictionary<string, string>` in enumeration order; its keys are distinct. A
      null dictionary is treated like an empty one everywhere it is read. */
  type Dict = d: seq<(string, string)> | DistinctKeys(d) witness []

  predicate DistinctKeys(d: seq<(string, string)>) {
    forall i, j :: 0 <= i < j < |d| ==> d[i].0 != d[j].0
  }

  // ---------------------------------------------------------------- reserved fields

  const TextKey := "text"
  const IndexedAtMs := "indexed_at_ms"
  const SourceDocId := "source_doc_id"
  const ChunkIndex := "chunk_index"
  const TotalChunks := "total_chunks"

  const ReservedKeys: seq<string> := [TextKey, IndexedAtMs, SourceDocId, ChunkIndex, TotalChunks]

  /** The five reserved field names are pairwise distinct. */
  lemma ReservedKeysDistinct()
    ensures forall i, j :: 0 <= i < j < |ReservedKeys| ==> ReservedKeys[i] != ReservedKeys[j]
  {
  }

  // ---------------------------------------------------------------- prefixes

  /** The prefixes tag and property fields are stored under. */
  datatype Prefixes = Prefixes(tag: string, property: string)

  /** The spelling `tag.` / `prop.` of the finished application. */
  const Dotted := Prefixes("tag.", "prop.")

  /** The spelling `tag_` / `prop_` of the earlier workshop steps. */
  const Underscored := Prefixes("tag_", "prop_")

  /** Prefixes that keep the three kinds of field apart: neither prefix starts the
      other, and no reserved field name starts with either. */
  predicate Separating(p: Prefixes) {
    && !StartsWith(p.tag, p.property) && !StartsWith(p.property, p.tag)
    && forall i :: 0 <= i < |ReservedKeys| ==> !StartsWith(ReservedKeys[i], p.tag) && !StartsWith(ReservedKeys[i], p.property)
  }

  lemma DottedSeparating()
    ensures Separating(Dotted)
  {
    assert !StartsWith(Dotted.tag, Dotted.property) by { assert Dotted.tag[0] != Dotted.property[0]; }
    assert !StartsWith(Dotted.property, Dotted.tag) by { assert Dotted.tag[0] != Dotted.property[0]; }
    forall i | 0 <= i < |ReservedKeys|
      ensures !StartsWith(ReservedKeys[i], Dotted.tag) && !StartsWith(ReservedKeys[i], Dotted.property)
    {
      var k := ReservedKeys[i];
      assert k[0] != 't' || k[1] != 'a';
      assert k[0] != 'p';
    }
  }

  lemma UnderscoredSeparating()
    ensures Separating(Underscored)
  {
    assert !StartsWith(Underscored.tag, Underscored.property) by { assert Underscored.tag[0] != Underscored.property[0]; }
    assert !StartsWith(Underscored.property, Underscored.tag) by { assert Underscored.tag[0] != Underscored.property[0]; }
    forall i | 0 <= i < |ReservedKeys|
      ensures !StartsWith(ReservedKeys[i], Underscored.tag) && !StartsWith(ReservedKeys[i], Underscored.property)
    {
      var k := ReservedKeys[i];
      assert k[0] != 't' || k[1] != 'a';
      assert k[0] != 'p';
    }
  }

  /** Prefixing is injective: the key can be read back after the prefix. */
  lemma PrefixInjective(prefix: string, k1: string, k2: string)
    ensures prefix + k1 == prefix + k2 <==> k1 == k2
  {
    if prefix + k1 == prefix + k2 {
      assert k1 == (prefix + k1)[|prefix|..];
      assert k2 == (prefix + k2)[|prefix|..];
    }
  }

  /** A prefixed key starts with its prefix. */
  lemma PrefixedStartsWith(prefix: string, k: string)
    ensures StartsWith(prefix + k, prefix)
  {
    assert (prefix + k)[..|prefix|] == prefix;
  }

  /** Under separating prefixes a tag field is never a property field. */
  lemma TagNeverProperty(p: Prefixes, k1: string, k2: string)
    requires Separating(p)
    ensures p.tag + k1 != p.property + k2
  {
    var a, b := p.tag + k1, p.property + k2;
    if |p.tag| <= |p.property| {
      assert p.property[..|p.tag|] != p.tag;
      var j :| 0 <= j < |p.tag| && p.property[j] != p.tag[j];
      assert a[j] == p.tag[j] && b[j] == p.property[j];
    } else {
      assert p.tag[..|p.property|] != p.property;
      var j :| 0 <= j < |p.property| && p.property[j] != p.tag[j];
      assert a[j] == p.tag[j] && b[j] == p.property[j];
    }
  }

  /** Under separating prefixes a prefixed field is never a reserved field. */
  lemma PrefixedNeverReserved(p: Prefixes, prefix: string, k: string)
    requires Separating(p) && (prefix == p.tag || prefix == p.property)
    ensures prefix + k !in ReservedKeys
  {
    PrefixedStartsWith(prefix, k);
    forall i | 0 <= i < |ReservedKeys| ensures ReservedKeys[i] != prefix + k {
      assert !StartsWith(ReservedKeys[i], prefix);
    }
  }

  // ---------------------------------------------------------------- writing dictionaries

  /** `foreach (var (key, value) in dict) payload[$"{prefix}{key}"] = value;` */
  function WriteAll(m: PayloadMap, prefix: string, d: seq<(string, string)>): PayloadMap
    decreases |d|
  {
    if |d| == 0 then m else WriteAll(m[prefix + d[0].0 := Str(d[0].1)], prefix, d[1..])
  }

  /** `m` holds every entry of `d` under `prefix`. */
  predicate HoldsAll(m: PayloadMap, prefix: string, d: seq<(string, string)>) {
    forall i :: 0 <= i < |d| ==> prefix + d[i].0 in m && m[prefix + d[i].0] == Str(d[i].1)
  }

  /** A field that does not start with the prefix is left as it was. */
  lemma {:induction false} WriteAllKeeps(m: PayloadMap, prefix: string, d: seq<(string, string)>, k: string)
    requires !StartsWith(k, prefix)
    ensures (k in WriteAll(m, prefix, d)) == (k in m)
    ensures k in m ==> WriteAll(m, prefix, d)[k] == m[k]
    decreases |d|
  {
    if |d| > 0 {
      PrefixedStartsWith(prefix, d[0].0);
      WriteAllKeeps(m[prefix + d[0].0 := Str(d[0].1)], prefix, d[1..], k);
    }
  }

  /** A field written from the dictionary is not overwritten by a later entry, since
      dictionary keys are distinct. */
  lemma {:induction false} WriteAllKeepsOthers(m: PayloadMap, prefix: string, d: seq<(string, string)>, k: string)
    requires forall i :: 0 <= i < |d| ==> prefix + d[i].0 != k
    requires k in m
    ensures k in WriteAll(m, prefix, d) && WriteAll(m, prefix, d)[k] == m[k]
    decreases |d|
  {
    if |d| > 0 {
      WriteAllKeepsOthers(m[prefix + d[0].0 := Str(d[0].1)], prefix, d[1..], k);
    }
  }

  /** After the writes the payload holds every dictionary entry under the prefix. */
  lemma {:induction false} WriteAllHolds(m: PayloadMap, prefix: string, d: Dict)
    ensures HoldsAll(WriteAll(m, prefix, d), prefix, d)
    decreases |d|
  {
    if |d| > 0 {
      var m' := m[prefix + d[0].0 := Str(d[0].1)];
      var rest: Dict := d[1..];
      WriteAllHolds(m', prefix, rest);
      var r := WriteAll(m, prefix, d);
      forall i | 0 <= i < |d| ensures prefix + d[i].0 in r && r[prefix + d[i].0] == Str(d[i].1) {
        if i == 0 {
          forall j | 0 <= j < |rest| ensures prefix + rest[j].0 != prefix + d[0].0 {
            PrefixInjective(prefix, rest[j].0, d[0].0);
          }
          WriteAllKeepsOthers(m', prefix, rest, prefix + d[0].0);
        } else {
          assert d[i] == rest[i - 1];
        }
      }
    }
  }

  /** The fields of the result are those of `m` and the prefixed dictionary keys. */
  lemma {:induction false} WriteAllDomain(m: PayloadMap, prefix: string, d: seq<(string, string)>, k: string)
    ensures k in WriteAll(m, prefix, d) <==> k in m || exists i :: 0 <= i < |d| && k == prefix + d[i].0
    decreases |d|
  {
    if |d| > 0 {
      var m' := m[prefix + d[0].0 := Str(d[0].1)];
      WriteAllDomain(m', prefix, d[1..], k);
      if exists i :: 0 <= i < |d[1..]| && k == prefix + d[1..][i].0 {
        var i :| 0 <= i < |d[1..]| && k == prefix + d[1..][i].0;
        assert k == prefix + d[i + 1].0;
      }
      if exists i :: 0 <= i < |d| && k == prefix + d[i].0 {
        var i :| 0 <= i < |d| && k == prefix + d[i].0;
        if i > 0 {
          assert d[1..][i - 1] == d[i];
        }
      }
    }
  }
}
