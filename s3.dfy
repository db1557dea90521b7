/**
 * The object-store service: one text object per (user, date) under a fixed
 * key layout, its body format and URL, and put/get/delete/head over the
 * bucket, modelled as a map from keys to texts.  A client fault is a
 * parameter of each call.
 */
module S3 {
  import opened Wrappers
  import opened Text
  import opened Http
  import Numerals
  import Dates

  const BucketMissing: string := "S3_BUCKET_NAME 환경변수가 설정되지 않았습니다."

  /** Construction: the bucket name must be set and non-empty. */
  function BucketFromEnv(env: Option<string>): (r: Result<string, string>)
    ensures r.Ok? <==> env.Some? && env.value != ""
    ensures r.Ok? ==> r.value == env.value
    ensures r.Err? ==> r.error == BucketMissing
  {
    if env.Some? && env.value != "" then Ok(env.value) else Err(BucketMissing)
  }

  /** `os.getenv('AWS_REGION', 'us-east-1')`: the default applies only when the variable is unset. */
  function RegionFromEnv(env: Option<string>): string {
    env.GetOr("us-east-1")
  }

  const HistoryDir: string := "/history/"
  const TextSuffix: string := ".txt"

  /**
   * `generate_s3_key`: the user, "/history/", the four-digit year, '/', the
   * two-digit month, '/', the ISO date and ".txt".
   */
  function GenerateKey(user: string, date: Dates.Date): (key: string)
    requires Dates.Valid(date)
    ensures |key| == |user| + 31
    ensures key[..|user|] == user
    ensures key[|user|..|user| + 9] == HistoryDir
    ensures key[|user| + 9..|user| + 13] == Dates.YearText(date)
    ensures key[|user| + 13] == '/'
    ensures key[|user| + 14..|user| + 16] == Dates.MonthText(date)
    ensures key[|user| + 16] == '/'
    ensures key[|user| + 17..|user| + 27] == Dates.Iso(date)
    ensures key[|user| + 27..] == TextSuffix
  {
    KeyLayout(user, Dates.YearText(date), Dates.MonthText(date), Dates.Iso(date));
    user + HistoryDir + Dates.YearText(date) + "/" + Dates.MonthText(date) + "/" + Dates.Iso(date) + TextSuffix
  }

  /** Where each segment of a key sits, given the widths of the year, month and date texts. */
  lemma KeyLayout(user: string, year: string, month: string, iso: string)
    requires |year| == 4 && |month| == 2 && |iso| == 10
    ensures var key := user + HistoryDir + year + "/" + month + "/" + iso + TextSuffix;
      && |key| == |user| + 31
      && key[..|user|] == user
      && key[|user|..|user| + 9] == HistoryDir
      && key[|user| + 9..|user| + 13] == year
      && key[|user| + 13] == '/'
      && key[|user| + 14..|user| + 16] == month
      && key[|user| + 16] == '/'
      && key[|user| + 17..|user| + 27] == iso
      && key[|user| + 27..] == TextSuffix
  {
    var dir := user + HistoryDir + year + "/" + month + "/";
    var key := dir + iso + TextSuffix;
    assert key[..|dir|] == dir;
  }

  /**
   * The key names its date three times over: the year directory reads as
   * the year, the month directory as the month, and the file name (without
   * ".txt") parses back to the date.
   */
  lemma KeyNamesDate(user: string, date: Dates.Date)
    requires Dates.Valid(date)
    ensures var key := GenerateKey(user, date);
      && Numerals.AllDigits(key[|user| + 9..|user| + 13], 10)
      && Numerals.Value(key[|user| + 9..|user| + 13], 10) == date.year
      && Numerals.AllDigits(key[|user| + 14..|user| + 16], 10)
      && Numerals.Value(key[|user| + 14..|user| + 16], 10) == date.month
      && Dates.ParseIso(key[|user| + 17..|user| + 27]) == Some(date)
  {
    Dates.PowFacts();
    Numerals.FixedRoundTrip(date.year, 4, 10);
    Numerals.FixedRoundTrip(date.month, 2, 10);
    Dates.ParseIsoRoundTrip(date);
  }

  /** The key depends on the user and the date and on nothing else, and tells both apart. */
  lemma KeyInjective(u1: string, d1: Dates.Date, u2: string, d2: Dates.Date)
    requires Dates.Valid(d1) && Dates.Valid(d2)
    requires GenerateKey(u1, d1) == GenerateKey(u2, d2)
    ensures u1 == u2 && d1 == d2
  {
    var k := GenerateKey(u1, d1);
    assert |u1| == |u2|;
    assert u1 == k[..|u1|] == u2;
    assert Dates.Iso(d1) == k[|u1| + 17..|u1| + 27] == Dates.Iso(d2);
    Dates.IsoInjective(d1, d2);
  }

  /** The first two lines of the file: the date (`str(date)` is its ISO form) and the user. */
  function Header(user: string, date: Dates.Date): string
    requires Dates.Valid(date)
  {
    "날짜: " + Dates.Iso(date) + "\n" + "사용자: " + user + "\n"
  }

  /** `if tags:` — present and non-empty. */
  predicate HasTags(tags: Option<seq<string>>) {
    tags.Some? && |tags.value| > 0
  }

  const TagsLabel: string := "태그: "
  const ContentLabel: string := "\n내용:\n"

  /** The line right after the header, in either form. */
  function TagsLine(tags: Option<seq<string>>): string {
    if HasTags(tags) then TagsLabel + Join(tags.value, ", ") + "\n" else ""
  }

  /** The file body `save_history_to_s3` writes: header, the tags line when there are tags, then the content section. */
  function FileBody(user: string, date: Dates.Date, tags: Option<seq<string>>, content: string): string
    requires Dates.Valid(date)
  {
    Header(user, date) + TagsLine(tags) + ContentLabel + content
  }

  /** The three parts of a concatenation can be read back by position. */
  lemma ThreeParts(x: string, y: string, z: string)
    ensures var s := x + y + z;
      s[..|x|] == x && s[|x|..|x| + |y|] == y && s[|x| + |y|..] == z && s[|x|..] == y + z
  {
  }

  /** The layout of any header followed by the tags line and the content section. */
  lemma LayoutAfter(h: string, tags: Option<seq<string>>, content: string)
    ensures var body := h + TagsLine(tags) + ContentLabel + content;
      && |body| == |h| + |TagsLine(tags)| + |ContentLabel| + |content|
      && body[..|h|] == h
      && body[|h| + |TagsLine(tags)|..] == ContentLabel + content
      && (StartsWith(body[|h|..], TagsLabel) <==> HasTags(tags))
      && (HasTags(tags) ==> body[|h|..|h| + |TagsLine(tags)|] == TagsLabel + Join(tags.value, ", ") + "\n")
  {
    var middle := TagsLine(tags);
    var tail := ContentLabel + content;
    var body := h + middle + tail;
    assert body == h + middle + ContentLabel + content;
    ThreeParts(h, middle, tail);
    if !HasTags(tags) {
      assert body[|h|..][0] == '\n' != TagsLabel[0];
    } else {
      assert middle[..|TagsLabel|] == TagsLabel;
    }
  }

  /**
   * The body starts with the header and ends with the content section; right
   * after the header comes the tags line exactly when there are tags.
   */
  lemma FileBodyLayout(user: string, date: Dates.Date, tags: Option<seq<string>>, content: string)
    requires Dates.Valid(date)
    ensures var body := FileBody(user, date, tags, content);
      var h := Header(user, date);
      && |body| == |h| + |TagsLine(tags)| + |ContentLabel| + |content|
      && body[..|h|] == h
      && body[|h| + |TagsLine(tags)|..] == ContentLabel + content
      && (StartsWith(body[|h|..], TagsLabel) <==> HasTags(tags))
      && (HasTags(tags) ==> body[|h|..|h| + |TagsLine(tags)|] == TagsLabel + Join(tags.value, ", ") + "\n")
  {
    LayoutAfter(Header(user, date), tags, content);
  }

  /** The URL `save_history_to_s3` returns: the virtual-hosted address of the bucket in the region, then the key. */
  function Url(bucket: string, region: string, key: string): (url: string)
    ensures var host := "https://" + bucket + ".s3." + region + ".amazonaws.com/";
      && |url| == |host| + |key|
      && url[..|host|] == host
      && url[|host|..] == key
  {
    "https://" + bucket + ".s3." + region + ".amazonaws.com/" + key
  }

  /** For one bucket and region, the URL tells keys apart: it names exactly one object. */
  lemma UrlInjective(bucket: string, region: string, k1: string, k2: string)
    requires Url(bucket, region, k1) == Url(bucket, region, k2)
    ensures k1 == k2
  {
    var host := "https://" + bucket + ".s3." + region + ".amazonaws.com/";
    assert k1 == Url(bucket, region, k1)[|host|..];
  }

  const SaveErrorPrefix: string := "S3 저장 중 오류가 발생했습니다: "
  const GetErrorPrefix: string := "S3에서 파일을 읽는 중 오류가 발생했습니다: "

  /** A put of `body` at `key`. */
  function Put(objects: map<string, string>, key: string, body: string): (m: map<string, string>)
    ensures key in m && m[key] == body
    ensures m.Keys == objects.Keys + {key}
    ensures forall k :: k in objects && k != key ==> m[k] == objects[k]
  {
    objects[key := body]
  }

  /** Saving the same (user, date) twice leaves one object, holding the later body. */
  lemma SaveTwiceOverwrites(objects: map<string, string>, user: string, date: Dates.Date,
                            b1: string, b2: string)
    requires Dates.Valid(date)
    ensures var key := GenerateKey(user, date);
      Put(Put(objects, key, b1), key, b2) == Put(objects, key, b2)
  {
  }

  /** Saves for different (user, date) pairs never overwrite each other. */
  lemma SavesForDistinctDaysCoexist(objects: map<string, string>, u1: string, d1: Dates.Date, b1: string,
                                    u2: string, d2: Dates.Date, b2: string)
    requires Dates.Valid(d1) && Dates.Valid(d2) && (u1 != u2 || d1 != d2)
    ensures var m := Put(Put(objects, GenerateKey(u1, d1), b1), GenerateKey(u2, d2), b2);
      m[GenerateKey(u1, d1)] == b1 && m[GenerateKey(u2, d2)] == b2
  {
    if GenerateKey(u1, d1) == GenerateKey(u2, d2) {
      KeyInjective(u1, d1, u2, d2);
    }
  }

  /** The service over one bucket; `objects` is the bucket's content. */
  class S3Service {
    const bucket: string
    const region: string
    var objects: map<string, string>

    constructor (bucket: string, region: string, objects: map<string, string>)
      requires bucket != ""
      ensures this.bucket == bucket && this.region == region && this.objects == objects
    {
      this.bucket := bucket;
      this.region := region;
      this.objects := objects;
    }

    /**
     * `save_history_to_s3`: write the formatted body under the (user, date)
     * key and return its URL; a client fault writes nothing.
     */
    method SaveHistory(user: string, content: string, date: Dates.Date, tags: Option<seq<string>>,
                       fault: Option<string>)
      returns (r: Result<string, Detail>)
      requires Dates.Valid(date)
      modifies this
      ensures fault.None? ==>
        && objects == Put(old(objects), GenerateKey(user, date), FileBody(user, date, tags, content))
        && r == Ok(Url(bucket, region, GenerateKey(user, date)))
      ensures fault.Some? ==> objects == old(objects) && r == Err(Literal(SaveErrorPrefix + fault.value))
    {
      var key := GenerateKey(user, date);
      var body := FileBody(user, date, tags, content);
      if fault.Some? {
        return Err(Literal(SaveErrorPrefix + fault.value));
      }
      objects := Put(objects, key, body);
      r := Ok(Url(bucket, region, key));
    }

    /** `get_history_from_s3`: the stored text, or an error for a missing key or a client fault. */
    method GetHistory(key: string, fault: Option<string>) returns (r: Result<string, Detail>)
      ensures r.Ok? <==> fault.None? && key in objects
      ensures r.Ok? ==> r.value == objects[key]
      ensures fault.Some? ==> r == Err(Literal(GetErrorPrefix + fault.value))
      ensures fault.None? && key !in objects ==> r == Err(PrefixThenLibraryText(GetErrorPrefix))
    {
      if fault.Some? {
        r := Err(Literal(GetErrorPrefix + fault.value));
      } else if key !in objects {
        r := Err(PrefixThenLibraryText(GetErrorPrefix));
      } else {
        r := Ok(objects[key]);
      }
    }

    /** `delete_history_from_s3`: false on a client fault, true otherwise, also for a missing key. */
    method DeleteHistory(key: string, fault: bool) returns (deleted: bool)
      modifies this
      ensures deleted == !fault
      ensures objects == if fault then old(objects) else old(objects) - {key}
    {
      if fault {
        return false;
      }
      objects := objects - {key};
      deleted := true;
    }

    /** `check_file_exists`: the head lookup succeeds. */
    method FileExists(key: string, fault: bool) returns (exists_: bool)
      ensures exists_ <==> key in objects && !fault
    {
      exists_ := !fault && key in objects;
    }
  }
}
