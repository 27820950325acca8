/** Camera configuration documents and the merge that lets geometry be edited
    while an enrollment holds a camera (tvt_edge/service.py). */
module CameraConfig {
  import opened Options

  datatype Json =
    | Null
    | Bool(b: bool)
    | Number(n: real)
    | String(s: string)
    | Array(items: seq<Json>)
    | Object(fields: map<string, Json>)

  type Config = map<string, Json>

  /** The zones of a configuration; anything but an object counts as none. */
  function Zones(config: Config): map<string, Json> {
    if "zones" in config && config["zones"].Object? then config["zones"].fields else map[]
  }

  /** The two values that geometry owns, and the rest, which it must keep. */
  function Lines(config: Config): Option<Json> {
    if "lines" in config then Some(config["lines"]) else None
  }

  function Anpr(config: Config): Option<Json> {
    if "anpr" in Zones(config) then Some(Zones(config)["anpr"]) else None
  }

  function OtherZones(config: Config): map<string, Json> {
    Zones(config) - {"anpr"}
  }

  function OtherKeys(config: Config): Config {
    config - {"lines", "zones"}
  }

  function MergedZones(config: Config, geometry: Config): map<string, Json> {
    match Anpr(geometry)
    case Some(anpr) => OtherZones(config)["anpr" := anpr]
    case None => OtherZones(config)
  }

  function Merge(config: Config, geometry: Config): Config {
    var kept := OtherKeys(config);
    var lined := if "lines" in geometry then kept["lines" := geometry["lines"]] else kept;
    if MergedZones(config, geometry) == map[] then lined
    else lined["zones" := Object(MergedZones(config, geometry))]
  }

  method MergeCameraGeometry(configuration: Config, geometry: Config) returns (merged: Config)
    ensures merged == Merge(configuration, geometry)
  {
    merged := configuration - {"lines"};
    if "lines" in geometry {
      merged := merged["lines" := geometry["lines"]];
    }
    var zones: map<string, Json> := map[];
    if "zones" in merged && merged["zones"].Object? {
      zones := merged["zones"].fields;
    }
    zones := zones - {"anpr"};
    if "zones" in geometry && geometry["zones"].Object? && "anpr" in geometry["zones"].fields {
      zones := zones["anpr" := geometry["zones"].fields["anpr"]];
    }
    assert zones == MergedZones(configuration, geometry);
    if zones != map[] {
      merged := merged["zones" := Object(zones)];
    } else {
      merged := merged - {"zones"};
    }
  }

  /** What a merged document is: geometry's lines and number-plate zones, every
      other zone and key from the configuration, and never an empty zones object. */
  ghost predicate CarriesGeometry(merged: Config, config: Config, geometry: Config) {
    && Lines(merged) == Lines(geometry)
    && Anpr(merged) == Anpr(geometry)
    && OtherZones(merged) == OtherZones(config)
    && OtherKeys(merged) == OtherKeys(config)
    && ("zones" in merged ==> merged["zones"].Object? && merged["zones"].fields != map[])
  }

  lemma MergeIsDetermined(merged: Config, config: Config, geometry: Config)
    ensures merged == Merge(config, geometry) <==> CarriesGeometry(merged, config, geometry)
  {
    var m := Merge(config, geometry);
    assert Zones(m) == MergedZones(config, geometry);
    assert OtherZones(m) == OtherZones(config);
    assert OtherKeys(m) == OtherKeys(config);
    if CarriesGeometry(merged, config, geometry) {
      forall z ensures z in Zones(merged) <==> z in Zones(m) {
        assert z != "anpr" ==> (z in Zones(merged) <==> z in OtherZones(merged));
        assert z != "anpr" ==> (z in Zones(m) <==> z in OtherZones(m));
      }
      forall z | z in Zones(m) ensures Zones(merged)[z] == Zones(m)[z] {
        if z != "anpr" {
          assert OtherZones(merged)[z] == OtherZones(m)[z];
        }
      }
      assert Zones(merged) == Zones(m);
      forall k ensures k in merged <==> k in m {
        assert k != "lines" && k != "zones" ==> (k in merged <==> k in OtherKeys(merged));
        assert k != "lines" && k != "zones" ==> (k in m <==> k in OtherKeys(m));
        assert "lines" in merged <==> Lines(merged).Some?;
        assert "lines" in m <==> Lines(m).Some?;
      }
      forall k | k in m ensures merged[k] == m[k] {
        if k != "lines" && k != "zones" {
          assert OtherKeys(merged)[k] == OtherKeys(m)[k];
        } else if k == "lines" {
          assert Lines(merged) == Some(merged["lines"]) && Lines(m) == Some(m["lines"]);
        }
      }
      assert merged == m;
    }
  }

  lemma MergeAbsorbs(config: Config, first: Config, second: Config)
    ensures Merge(Merge(config, first), second) == Merge(config, second)
  {
    var once := Merge(config, first);
    MergeIsDetermined(once, config, first);
    MergeIsDetermined(Merge(once, second), once, second);
    MergeIsDetermined(Merge(once, second), config, second);
  }

  /** The edits made to one camera, oldest first. */
  function MergeAll(config: Config, edits: seq<Config>): Config {
    if edits == [] then config else Merge(MergeAll(config, edits[..|edits| - 1]), edits[|edits| - 1])
  }

  lemma {:induction false} OnlyTheLastEditMatters(config: Config, edits: seq<Config>)
    requires edits != []
    ensures MergeAll(config, edits) == Merge(config, edits[|edits| - 1])
  {
    var before := edits[..|edits| - 1];
    if before != [] {
      OnlyTheLastEditMatters(config, before);
      MergeAbsorbs(config, before[|before| - 1], edits[|edits| - 1]);
    }
  }
}
