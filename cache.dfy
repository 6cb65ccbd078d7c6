/**
 * The on-disk cache of velocity documents (lines 121-142 and 171-178 of
 * `process_wind_data`): one JSON file per run, forecast hour and level,
 * served again while it is less than six hours old.
 */
module Cache {
  import opened Wrappers
  import opened Text
  import opened Calendar
  import opened Serializer

  /** A file younger than this is served as it is. */
  const STALE_AFTER: int := 21_600_000_000

  /**
   * `_fNNN` for a positive forecast hour, nothing otherwise (lines 123-126):
   * a tag starts `_f` and its digits read back as the hour.
   */
  function ForecastTag(fxx: int): (tag: string)
    ensures tag == "" <==> fxx <= 0
    ensures fxx > 0 ==> |tag| >= 5 && tag[..2] == "_f" && AllDigits(tag[2..]) && Value(tag[2..]) == fxx
  {
    if fxx > 0 then
      var digits := ZeroPad(fxx, 3);
      ValueOfZeroPad(fxx, 3);
      assert ("_f" + digits)[2..] == digits;
      "_f" + digits
    else ""
  }

  /**
   * `gfs_velocity_{%Y%m%d%H}[_f{fxx:03d}]_{level}mb.json`: after the fixed
   * prefix come the run's hour stamp, the forecast tag, `_`, the level in
   * decimal, and `mb.json`.
   */
  function CacheName(init: int, fxx: int, level: int): (name: string)
    ensures NameLayout(name, HourStamp(init), ForecastTag(fxx), IntStr(level))
  {
    Glue(HourStamp(init), ForecastTag(fxx), IntStr(level))
  }

  lemma ForecastTagShape(fxx: int)
    requires fxx < 1000
    ensures fxx > 0 ==> |ForecastTag(fxx)| == 5 && ForecastTag(fxx)[1] == 'f'
    ensures fxx <= 0 ==> ForecastTag(fxx) == ""
  {
  }

  /**
   * Different runs, forecast hours (0 to 999) or levels never share a cache
   * file: the name determines all three.
   */
  lemma CacheNameInjective(a: int, fa: int, la: int, b: int, fb: int, lb: int)
    requires InDatetimeRange(a) && a % HOUR == 0 && 0 <= fa < 1000
    requires InDatetimeRange(b) && b % HOUR == 0 && 0 <= fb < 1000
    requires CacheName(a, fa, la) == CacheName(b, fb, lb)
    ensures a == b && fa == fb && la == lb
  {
    var sa, sb := HourStamp(a), HourStamp(b);
    var ta, tb := ForecastTag(fa), ForecastTag(fb);
    var ia, ib := IntStr(la), IntStr(lb);
    ForecastTagShape(fa);
    ForecastTagShape(fb);
    assert !IsDigit('f');
    TagsAlign(sa, ta, ia, sb, tb, ib);
    FieldsEqual(sa, ta, ia, sb, tb, ib);
    HourStampInjective(a, b);
    IntStrInjective(la, lb);
    if fa > 0 && fb > 0 {
      SplitEqual("_f", ZeroPad(fa, 3), "_f", ZeroPad(fb, 3));
      ZeroPadInjective(fa, fb, 3);
    }
  }

  /**
   * Where each piece of a cache name sits: the prefix, the stamp from
   * offset 13, the tag right after it, one `_`, the level, and `mb.json`
   * as the last seven characters.
   */
  predicate NameLayout(name: string, stamp: string, tag: string, level: string) {
    var s, t := 13 + |stamp|, 13 + |stamp| + |tag|;
    && |name| == t + 1 + |level| + 7
    && name[..13] == "gfs_velocity_"
    && name[13..s] == stamp
    && name[s..t] == tag
    && name[t] == '_'
    && name[t + 1..|name| - 7] == level
    && name[|name| - 7..] == "mb.json"
  }

  /** The pieces of a cache name, glued together. */
  function Glue(stamp: string, tag: string, level: string): (name: string)
    ensures NameLayout(name, stamp, tag, level)
  {
    var head := "gfs_velocity_" + stamp;
    var withTag := head + tag;
    var body := withTag + "_" + level;
    var name := body + "mb.json";
    assert head[..13] == "gfs_velocity_" && head[13..] == stamp;
    assert withTag[..|head|] == head && withTag[|head|..] == tag;
    assert body[..|withTag|] == withTag && body[|withTag|] == '_' && body[|withTag| + 1..] == level;
    assert name[..|body|] == body && name[|body|..] == "mb.json";
    name
  }

  /** Equal names whose stamps are equally long carry equally long tags. */
  lemma TagsAlign(sa: string, ta: string, ia: string, sb: string, tb: string, ib: string)
    requires |sa| == |sb|
    requires ta == "" || (|ta| == 5 && ta[1] == 'f')
    requires tb == "" || (|tb| == 5 && tb[1] == 'f')
    requires |ia| > 0 && ia[0] != 'f' && |ib| > 0 && ib[0] != 'f'
    requires Glue(sa, ta, ia) == Glue(sb, tb, ib)
    ensures |ta| == |tb|
  {
    CharAfterStamp(sa, ta, ia);
    CharAfterStamp(sb, tb, ib);
  }

  /** The character right after `gfs_velocity_<stamp>_`: `f` when tagged, else the level's first. */
  lemma CharAfterStamp(stamp: string, tag: string, level: string)
    requires tag == "" || (|tag| == 5 && tag[1] == 'f')
    requires |level| > 0
    ensures 14 + |stamp| < |Glue(stamp, tag, level)|
    ensures Glue(stamp, tag, level)[14 + |stamp|] == if tag == "" then level[0] else 'f'
  {
  }

  /** Equal names with equally long stamps and tags have equal pieces. */
  lemma FieldsEqual(sa: string, ta: string, ia: string, sb: string, tb: string, ib: string)
    requires |sa| == |sb| && |ta| == |tb|
    requires Glue(sa, ta, ia) == Glue(sb, tb, ib)
    ensures sa == sb && ta == tb && ia == ib
  {
    var prefix := "gfs_velocity_";
    var wa, wb := prefix + sa, prefix + sb;
    var za, zb := wa + ta, wb + tb;
    var ya, yb := za + "_", zb + "_";
    var xa, xb := ya + ia, yb + ib;
    SplitEqual(xa, "mb.json", xb, "mb.json");
    SplitEqual(ya, ia, yb, ib);
    SplitEqual(za, "_", zb, "_");
    SplitEqual(wa, ta, wb, tb);
    SplitEqual(prefix, sa, prefix, sb);
  }

  /** Hour 0 and any negative hour are named alike: neither has an `_f` part. */
  lemma NonPositiveHoursShareTheUntaggedName(init: int, fxx: int, level: int)
    requires fxx <= 0
    ensures CacheName(init, fxx, level) == CacheName(init, 0, level)
    ensures ForecastTag(fxx) == ""
  {
  }

  /** A file: its modification time and, when it parses, the documents in it. */
  datatype Entry = Entry(modifiedAt: int, content: Option<seq<Doc>>)

  /**
   * Lines 131-142: a hit needs the file, an age under six hours at the
   * moment of the check, and content that parses; anything else falls
   * through to a fresh fetch.
   */
  function Lookup(files: map<string, Entry>, name: string, at: int): (r: Option<seq<Doc>>)
    ensures r.Some? ==> name in files && at - files[name].modifiedAt < STALE_AFTER && files[name].content == r
    ensures r.None? ==> name !in files || at - files[name].modifiedAt >= STALE_AFTER || files[name].content.None?
  {
    if name in files && at - files[name].modifiedAt < STALE_AFTER then files[name].content else None
  }

  /** A file written under `name` at `savedAt` is served, unchanged, for the next six hours. */
  lemma SaveThenLookup(files: map<string, Entry>, name: string, docs: seq<Doc>, savedAt: int, at: int)
    requires at - savedAt < STALE_AFTER
    ensures Lookup(files[name := Entry(savedAt, Some(docs))], name, at) == Some(docs)
  {
  }

  /** Six hours after it was written a file is never served. */
  lemma StaleIsMiss(files: map<string, Entry>, name: string, at: int)
    requires name in files && at - files[name].modifiedAt >= STALE_AFTER
    ensures Lookup(files, name, at) == None
  {
  }

  /** Writing one file changes what no other name looks up to. */
  lemma SaveLeavesOtherNames(files: map<string, Entry>, name: string, other: string, e: Entry, at: int)
    requires other != name
    ensures Lookup(files[name := e], other, at) == Lookup(files, other, at)
  {
  }

  /** The data directory: file name to file. */
  class FileStore {
    var files: map<string, Entry>

    constructor()
      ensures files == map[]
    {
      files := map[];
    }

    /**
     * Lines 172-178: `json.dump` into `name`, stamped `at`. When `ok` is
     * false the write raised and the directory is as it was.
     */
    method Save(name: string, docs: seq<Doc>, at: int, ok: bool)
      modifies this
      ensures ok ==> files == old(files)[name := Entry(at, Some(docs))]
      ensures !ok ==> files == old(files)
    {
      if ok {
        files := files[name := Entry(at, Some(docs))];
      }
    }
  }
}
