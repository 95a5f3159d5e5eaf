/**
 * The schema of the run-table export: seven fixed columns, then one Float64
 * column per metric key, one string column per param key and one string
 * column per tag key, each attribute column named by its kind prefix.
 */
module ArrowSchema {
  import opened KeyOrder

  /** The Arrow column types the export uses. */
  datatype ColumnType = Utf8 | TimestampMs | Boolean | Float64

  datatype Field = Field(name: string, typ: ColumnType)

  /** The caller's flags: `excludeParams` drops params and tags, `excludeTraces` drops metrics. */
  datatype Exclusions = Exclusions(excludeParams: bool, excludeTraces: bool)

  /** The key lists discovered for one page, one per attribute kind. */
  datatype PageKeys = PageKeys(metrics: seq<string>, params: seq<string>, tags: seq<string>)

  const FixedFields: seq<Field> := [
    Field("run_id", Utf8),
    Field("name", Utf8),
    Field("experiment_name", Utf8),
    Field("creation_time", TimestampMs),
    Field("end_time", TimestampMs),
    Field("archived", Boolean),
    Field("active", Boolean)
  ]

  /** Index of the first metric column (`metricIndex = len(fields)` after the fixed ones). */
  const MetricIndex: nat := 7

  const MetricPrefix: string := "metrics:"
  const ParamPrefix: string := "params:"
  const TagPrefix: string := "tags:"

  /** The metric keys that get a column: none when traces are excluded. */
  function MetricColumns(keys: PageKeys, ex: Exclusions): seq<string>
  {
    if ex.excludeTraces then [] else keys.metrics
  }

  /** The param keys that get a column: none when params are excluded. */
  function ParamColumns(keys: PageKeys, ex: Exclusions): seq<string>
  {
    if ex.excludeParams then [] else keys.params
  }

  /** The tag keys that get a column: none when params are excluded (tags follow the params flag). */
  function TagColumns(keys: PageKeys, ex: Exclusions): seq<string>
  {
    if ex.excludeParams then [] else keys.tags
  }

  function ParamIndex(keys: PageKeys, ex: Exclusions): nat
  {
    MetricIndex + |MetricColumns(keys, ex)|
  }

  function TagIndex(keys: PageKeys, ex: Exclusions): nat
  {
    ParamIndex(keys, ex) + |ParamColumns(keys, ex)|
  }

  /** One column of type `typ` per key, named `prefix + key`, in key-list order. */
  function KeyFields(prefix: string, ks: seq<string>, typ: ColumnType): (fs: seq<Field>)
    ensures |fs| == |ks|
    ensures forall i :: 0 <= i < |ks| ==> fs[i] == Field(prefix + ks[i], typ)
  {
    if |ks| == 0 then [] else KeyFields(prefix, ks[..|ks| - 1], typ) + [Field(prefix + ks[|ks| - 1], typ)]
  }

  /** The schema of the export for the discovered keys and the caller's flags. */
  function Schema(keys: PageKeys, ex: Exclusions): seq<Field>
  {
    FixedFields
      + KeyFields(MetricPrefix, MetricColumns(keys, ex), Float64)
      + KeyFields(ParamPrefix, ParamColumns(keys, ex), Utf8)
      + KeyFields(TagPrefix, TagColumns(keys, ex), Utf8)
  }

  /**
   * Assembles the schema as the export does: the fixed fields, then a loop per
   * attribute kind appending one field per key, recording where each block starts.
   */
  method BuildSchema(keys: PageKeys, ex: Exclusions)
    returns (fields: seq<Field>, metricIndex: nat, paramIndex: nat, tagIndex: nat)
    ensures fields == Schema(keys, ex)
    ensures metricIndex == MetricIndex
    ensures paramIndex == ParamIndex(keys, ex) && tagIndex == TagIndex(keys, ex)
  {
    fields := FixedFields;
    metricIndex := |fields|;
    if !ex.excludeTraces {
      fields := AppendKeyFields(fields, MetricPrefix, keys.metrics, Float64);
    }
    paramIndex := |fields|;
    if !ex.excludeParams {
      fields := AppendKeyFields(fields, ParamPrefix, keys.params, Utf8);
    }
    tagIndex := |fields|;
    if !ex.excludeParams {
      fields := AppendKeyFields(fields, TagPrefix, keys.tags, Utf8);
    }
  }

  /** The loop over one attribute kind: appends a field `prefix + key` of type `typ` per key, in order. */
  method AppendKeyFields(fields: seq<Field>, prefix: string, ks: seq<string>, typ: ColumnType)
    returns (out: seq<Field>)
    ensures out == fields + KeyFields(prefix, ks, typ)
  {
    out := fields;
    for i := 0 to |ks|
      invariant out == fields + KeyFields(prefix, ks[..i], typ)
    {
      assert ks[..i + 1][..i] == ks[..i];
      out := out + [Field(prefix + ks[i], typ)];
    }
    assert ks[..|ks|] == ks;
  }

  /**
   * The layout of the schema: the seven fixed columns first, then the metric
   * block from index 7, then the param block, then the tag block, each column
   * named by its kind prefix and key, in key-list order, and nothing else.
   */
  lemma SchemaLayout(keys: PageKeys, ex: Exclusions)
    ensures var s := Schema(keys, ex);
      && |s| == TagIndex(keys, ex) + |TagColumns(keys, ex)|
      && s[..MetricIndex] == FixedFields
      && (forall i :: 0 <= i < |MetricColumns(keys, ex)| ==>
            s[MetricIndex + i] == Field(MetricPrefix + MetricColumns(keys, ex)[i], Float64))
      && (forall i :: 0 <= i < |ParamColumns(keys, ex)| ==>
            s[ParamIndex(keys, ex) + i] == Field(ParamPrefix + ParamColumns(keys, ex)[i], Utf8))
      && (forall i :: 0 <= i < |TagColumns(keys, ex)| ==>
            s[TagIndex(keys, ex) + i] == Field(TagPrefix + TagColumns(keys, ex)[i], Utf8))
  {
  }

  /** The type of column `j`, by block of the schema. */
  lemma SchemaTypeAt(keys: PageKeys, ex: Exclusions, j: int)
    requires 0 <= j < |Schema(keys, ex)|
    ensures j < MetricIndex ==> Schema(keys, ex)[j] == FixedFields[j]
    ensures MetricIndex <= j < ParamIndex(keys, ex) ==> Schema(keys, ex)[j].typ == Float64
    ensures ParamIndex(keys, ex) <= j ==> Schema(keys, ex)[j].typ == Utf8
  {
    var a := FixedFields;
    var b := KeyFields(MetricPrefix, MetricColumns(keys, ex), Float64);
    var c := KeyFields(ParamPrefix, ParamColumns(keys, ex), Utf8);
    var d := KeyFields(TagPrefix, TagColumns(keys, ex), Utf8);
    assert Schema(keys, ex) == a + b + c + d;
    var pi, ti := ParamIndex(keys, ex), TagIndex(keys, ex);
    if j < MetricIndex {
      assert (a + b + c + d)[j] == a[j];
    } else if j < pi {
      assert (a + b + c + d)[j] == b[j - MetricIndex];
    } else if j < ti {
      assert (a + b + c + d)[j] == c[j - pi];
    } else {
      assert (a + b + c + d)[j] == d[j - ti];
    }
  }

  /** The flags decide the shape: excluded kinds contribute no column at all. */
  lemma SchemaExclusions(keys: PageKeys, ex: Exclusions)
    ensures ex.excludeTraces ==> ParamIndex(keys, ex) == MetricIndex
    ensures ex.excludeParams ==> |Schema(keys, ex)| == ParamIndex(keys, ex)
    ensures !ex.excludeTraces && !ex.excludeParams ==>
      |Schema(keys, ex)| == 7 + |keys.metrics| + |keys.params| + |keys.tags|
  {
  }

  lemma PrefixedDiffer(p: string, q: string, a: string, b: string)
    requires |p| > 0 && |q| > 0 && p[0] != q[0]
    ensures p + a != q + b
  {
    assert (p + a)[0] == p[0] && (q + b)[0] == q[0];
  }

  lemma PrefixedInjective(p: string, a: string, b: string)
    requires a != b
    ensures p + a != p + b
  {
    assert (p + a)[|p|..] == a && (p + b)[|p|..] == b;
  }

  /** The name of column `j` of the schema, by block. */
  lemma SchemaNameAt(keys: PageKeys, ex: Exclusions, j: int)
    requires 0 <= j < |Schema(keys, ex)|
    ensures j < MetricIndex ==> Schema(keys, ex)[j] == FixedFields[j]
    ensures MetricIndex <= j < ParamIndex(keys, ex) ==>
      Schema(keys, ex)[j].name == MetricPrefix + MetricColumns(keys, ex)[j - MetricIndex]
    ensures ParamIndex(keys, ex) <= j < TagIndex(keys, ex) ==>
      Schema(keys, ex)[j].name == ParamPrefix + ParamColumns(keys, ex)[j - ParamIndex(keys, ex)]
    ensures TagIndex(keys, ex) <= j ==>
      Schema(keys, ex)[j].name == TagPrefix + TagColumns(keys, ex)[j - TagIndex(keys, ex)]
  {
    SchemaLayout(keys, ex);
    if j < MetricIndex {
      assert Schema(keys, ex)[..MetricIndex][j] == FixedFields[j];
    }
  }

  /** A fixed column never shares its name with an attribute column: no fixed name starts with 'm', 'p' or 't'. */
  lemma FixedNameDiffers(keys: PageKeys, ex: Exclusions, i: int, j: int)
    requires 0 <= i < MetricIndex <= j < |Schema(keys, ex)|
    ensures Schema(keys, ex)[i].name != Schema(keys, ex)[j].name
  {
    SchemaNameAt(keys, ex, i);
    SchemaNameAt(keys, ex, j);
    var s := Schema(keys, ex);
    var q := if j < ParamIndex(keys, ex) then MetricPrefix else if j < TagIndex(keys, ex) then ParamPrefix else TagPrefix;
    assert s[j].name[0] == q[0];
    assert s[i].name[0] != q[0];
  }

  /** Two attribute columns have different names: different prefixes, or the same prefix and different keys. */
  lemma AttributeNamesDiffer(keys: PageKeys, ex: Exclusions, i: int, j: int)
    requires StrictlySorted(keys.metrics) && StrictlySorted(keys.params) && StrictlySorted(keys.tags)
    requires MetricIndex <= i < j < |Schema(keys, ex)|
    ensures Schema(keys, ex)[i].name != Schema(keys, ex)[j].name
  {
    SchemaNameAt(keys, ex, i);
    SchemaNameAt(keys, ex, j);
    var pi, pj := ParamIndex(keys, ex), TagIndex(keys, ex);
    var ms, ps, ts := MetricColumns(keys, ex), ParamColumns(keys, ex), TagColumns(keys, ex);
    if j < pi {
      SortedDistinctElements(ms, i - MetricIndex, j - MetricIndex);
      PrefixedInjective(MetricPrefix, ms[i - MetricIndex], ms[j - MetricIndex]);
    } else if i < pi && j < pj {
      PrefixedDiffer(MetricPrefix, ParamPrefix, ms[i - MetricIndex], ps[j - pi]);
    } else if i < pi {
      PrefixedDiffer(MetricPrefix, TagPrefix, ms[i - MetricIndex], ts[j - pj]);
    } else if j < pj {
      SortedDistinctElements(ps, i - pi, j - pi);
      PrefixedInjective(ParamPrefix, ps[i - pi], ps[j - pi]);
    } else if i < pj {
      PrefixedDiffer(ParamPrefix, TagPrefix, ps[i - pi], ts[j - pj]);
    } else {
      SortedDistinctElements(ts, i - pj, j - pj);
      PrefixedInjective(TagPrefix, ts[i - pj], ts[j - pj]);
    }
  }

  /**
   * The kind prefixes keep column names apart: when each key list is sorted and
   * distinct, no two columns of the schema share a name.
   */
  lemma SchemaNamesDistinct(keys: PageKeys, ex: Exclusions)
    requires StrictlySorted(keys.metrics) && StrictlySorted(keys.params) && StrictlySorted(keys.tags)
    ensures forall i, j :: 0 <= i < j < |Schema(keys, ex)| ==>
      Schema(keys, ex)[i].name != Schema(keys, ex)[j].name
  {
    forall i, j | 0 <= i < j < |Schema(keys, ex)| ensures Schema(keys, ex)[i].name != Schema(keys, ex)[j].name {
      if j < MetricIndex {
        SchemaNameAt(keys, ex, i);
        SchemaNameAt(keys, ex, j);
      } else if i < MetricIndex {
        FixedNameDiffers(keys, ex, i, j);
      } else {
        AttributeNamesDiffer(keys, ex, i, j);
      }
    }
  }
}
