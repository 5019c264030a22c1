/**
 The names under which the metadata store keeps its relations in one flat, string-keyed map.

 `Key` is the relation a name stands for; `Encode` is the name itself. The lemmas say that the
 names of different relations never meet, that a name determines its arguments, and that a scan
 by prefix finds exactly the members of one relation.
 */
module KeyNames {

  const IMAGE_TAG_PREFIX := "imageTag."
  const CONTAINER_IMAGE_PREFIX := "containerImage."
  const CONTAINER_ID_SUFFIX := ".containerId"
  const CONTAINER_PREFIX := "container."
  const MOUNT_PATH_SUFFIX := ".mountPath"
  const CATALOG_SUFFIX := ".catalog"
  const VOLUME_PREFIX := "volume."
  const VOLUME_MIDFIX := ".volume."
  const CONTAINER_TO_CLEAN_PREFIX := "containerToClean."

  datatype Key =
    | Tag(image: string)
    | MountPath(container: string)
    | Catalog(container: string)
    | ImageId(container: string)
    | Binding(volume: string)
    | VolumeOn(container: string, volume: string)
    | ToClean(container: string)
    | TagScan

  /** `TagScan` is where a scan of the tags starts: nothing is ever stored there, but seeking it is reading it. */
  function Encode(k: Key): string {
    match k
    case Tag(image) => IMAGE_TAG_PREFIX + image + CONTAINER_ID_SUFFIX
    case MountPath(c) => CONTAINER_PREFIX + c + MOUNT_PATH_SUFFIX
    case Catalog(c) => CONTAINER_PREFIX + c + CATALOG_SUFFIX
    case ImageId(c) => CONTAINER_IMAGE_PREFIX + c
    case Binding(v) => VOLUME_PREFIX + v + CONTAINER_ID_SUFFIX
    case VolumeOn(c, v) => CONTAINER_PREFIX + c + VOLUME_MIDFIX + v
    case ToClean(c) => CONTAINER_TO_CLEAN_PREFIX + c
    case TagScan => IMAGE_TAG_PREFIX
  }

  /** The names as they stand in a database on disk, which a later version of the driver has to find again. */
  lemma NamesOnDisk(image: string, c: string, v: string)
    ensures Encode(Tag(image)) == "imageTag." + image + ".containerId"
    ensures Encode(MountPath(c)) == "container." + c + ".mountPath"
    ensures Encode(Catalog(c)) == "container." + c + ".catalog"
    ensures Encode(ImageId(c)) == "containerImage." + c
    ensures Encode(Binding(v)) == "volume." + v + ".containerId"
    ensures Encode(VolumeOn(c, v)) == "container." + c + ".volume." + v
    ensures Encode(ToClean(c)) == "containerToClean." + c
  {
  }

  /** What buildah hands out as a container ID: hexadecimal digits, so in particular no dot. */
  predicate ValidId(c: string) {
    c != "" && '.' !in c
  }

  /** Image names and volume IDs are arbitrary; only container IDs are constrained. */
  predicate ValidKey(k: Key) {
    k.Tag? || k.Binding? || (!k.TagScan? && ValidId(k.container))
  }

  /** A name can be read back as soon as its container part has no dot; the code also looks up an empty one. */
  predicate Readable(k: Key) {
    k.Tag? || k.Binding? || k.TagScan? || '.' !in k.container
  }

  predicate HasPrefix(s: string, prefix: string) {
    prefix <= s
  }

  function VolumesPrefix(c: string): string {
    CONTAINER_PREFIX + c + VOLUME_MIDFIX
  }

  /** `strings.TrimPrefix`. */
  function TrimPrefix(s: string, prefix: string): string {
    if prefix <= s then s[|prefix|..] else s
  }

  /** A dot-free head followed by a tail that starts with a dot can be split in one way only. */
  lemma SplitAtFirstDot(c: string, t: string, c': string, t': string)
    requires '.' !in c && '.' !in c'
    requires |t| > 0 && |t'| > 0 && t[0] == '.' && t'[0] == '.'
    requires c + t == c' + t'
    ensures c == c' && t == t'
  {
    var s := c + t;
    assert s[|c|] == '.' && s[|c'|] == '.';
    assert forall i | 0 <= i < |c| :: s[i] == c[i];
    assert forall i | 0 <= i < |c'| :: s[i] == c'[i];
    assert |c| == |c'|;
    assert c == s[..|c|] && c' == s[..|c|];
    assert t == s[|c|..] && t' == s[|c|..];
  }

  /** The part of a `container.` name after its prefix. */
  function Tail(k: Key): string
    requires k.MountPath? || k.Catalog? || k.VolumeOn?
  {
    match k
    case MountPath(_) => MOUNT_PATH_SUFFIX
    case Catalog(_) => CATALOG_SUFFIX
    case VolumeOn(_, v) => VOLUME_MIDFIX + v
  }

  lemma Regroup(a: string, b: string, c: string)
    ensures a + b + c == a + (b + c)
  {
  }

  lemma TailSplitsName(k: Key)
    requires k.MountPath? || k.Catalog? || k.VolumeOn?
    ensures Encode(k) == CONTAINER_PREFIX + (k.container + Tail(k))
    ensures |Tail(k)| > 1 && Tail(k)[0] == '.'
  {
    Regroup(CONTAINER_PREFIX, k.container, Tail(k));
    if k.VolumeOn? {
      Regroup(CONTAINER_PREFIX + k.container, VOLUME_MIDFIX, k.volume);
    }
  }

  function Family(k: Key): (char, char) {
    match k
    case Tag(_) => ('i', 'm')
    case TagScan => ('i', 'm')
    case Binding(_) => ('v', 'o')
    case MountPath(_) => ('c', '.')
    case Catalog(_) => ('c', '.')
    case VolumeOn(_, _) => ('c', '.')
    case ImageId(_) => ('c', 'I')
    case ToClean(_) => ('c', 'T')
  }

  lemma FamilyShows(k: Key)
    ensures |Encode(k)| > 8 && (|Encode(k)| > 9 || k.TagScan?)
    ensures Encode(k)[0] == Family(k).0
    ensures Encode(k)[0] == 'c' ==> !k.TagScan? && Encode(k)[9] == Family(k).1
  {
  }

  lemma StripBoth(p: string, a: string, b: string, s: string)
    requires p + a + s == p + b + s
    ensures a == b
  {
    assert a == (p + a + s)[|p|..|p| + |a|];
    assert b == (p + b + s)[|p|..|p| + |b|];
  }

  lemma StripPrefix(p: string, a: string, b: string)
    requires p + a == p + b
    ensures a == b
  {
    assert a == (p + a)[|p|..];
    assert b == (p + b)[|p|..];
  }

  lemma ContainerNamesMeet(a: Key, b: Key)
    requires Readable(a) && Readable(b)
    requires a.MountPath? || a.Catalog? || a.VolumeOn?
    requires b.MountPath? || b.Catalog? || b.VolumeOn?
    requires Encode(a) == Encode(b)
    ensures a.container == b.container && Tail(a) == Tail(b)
    ensures a.MountPath? == b.MountPath? && a.Catalog? == b.Catalog?
  {
    TailSplitsName(a);
    TailSplitsName(b);
    StripPrefix(CONTAINER_PREFIX, a.container + Tail(a), b.container + Tail(b));
    SplitAtFirstDot(a.container, Tail(a), b.container, Tail(b));
    assert Tail(a)[1] == Tail(b)[1];
  }

  /** Names determine what they stand for: no two relations and no two members of one share a name. */
  lemma EncodeInjective(a: Key, b: Key)
    requires Readable(a) && Readable(b)
    requires Encode(a) == Encode(b)
    ensures a == b
  {
    FamilyShows(a);
    FamilyShows(b);
    match a {
      case Tag(i) => StripBoth(IMAGE_TAG_PREFIX, i, b.image, CONTAINER_ID_SUFFIX);
      case TagScan =>
      case Binding(v) => StripBoth(VOLUME_PREFIX, v, b.volume, CONTAINER_ID_SUFFIX);
      case ImageId(c) => StripPrefix(CONTAINER_IMAGE_PREFIX, c, b.container);
      case ToClean(c) => StripPrefix(CONTAINER_TO_CLEAN_PREFIX, c, b.container);
      case MountPath(_) => ContainerNamesMeet(a, b);
      case Catalog(_) => ContainerNamesMeet(a, b);
      case VolumeOn(_, v) =>
        ContainerNamesMeet(a, b);
        StripPrefix(VOLUME_MIDFIX, v, b.volume);
    }
  }

  /** Scanning `imageTag.` meets the image tags and nothing else that is ever stored. */
  lemma TagScanExact(k: Key)
    ensures HasPrefix(Encode(k), IMAGE_TAG_PREFIX) <==> k.Tag? || k.TagScan?
  {
    FamilyShows(k);
    if k.Tag? {
      assert Encode(k) == IMAGE_TAG_PREFIX + (k.image + CONTAINER_ID_SUFFIX);
    }
  }

  /** Scanning `containerToClean.` meets the marks and nothing else, and what follows is the container. */
  lemma MarkScanExact(k: Key)
    ensures HasPrefix(Encode(k), CONTAINER_TO_CLEAN_PREFIX) <==> k.ToClean?
    ensures k.ToClean? ==> TrimPrefix(Encode(k), CONTAINER_TO_CLEAN_PREFIX) == k.container
  {
    FamilyShows(k);
    if HasPrefix(Encode(k), CONTAINER_TO_CLEAN_PREFIX) {
      assert Encode(k)[0] == CONTAINER_TO_CLEAN_PREFIX[0];
      assert Encode(k)[9] == CONTAINER_TO_CLEAN_PREFIX[9];
    }
  }

  /** A scan reads the name it seeks: of a tag scan that is no key's, of the others that of an empty argument. */
  lemma SoughtNames(c: string)
    ensures Encode(TagScan) == IMAGE_TAG_PREFIX
    ensures Encode(ToClean("")) == CONTAINER_TO_CLEAN_PREFIX
    ensures Encode(VolumeOn(c, "")) == VolumesPrefix(c)
  {
  }

  /** Scanning `container.<c>.volume.` meets the volumes on `c`, of this container only. */
  lemma VolumeScanExact(k: Key, c: string)
    requires Readable(k) && ValidId(c)
    ensures HasPrefix(Encode(k), VolumesPrefix(c)) <==> k.VolumeOn? && k.container == c
  {
    FamilyShows(k);
    if k.VolumeOn? && k.container == c {
      assert Encode(k) == VolumesPrefix(c) + k.volume;
    }
    if HasPrefix(Encode(k), VolumesPrefix(c)) {
      var rest := Encode(k)[|VolumesPrefix(c)|..];
      assert Encode(k) == VolumesPrefix(c) + rest == Encode(VolumeOn(c, rest));
      EncodeInjective(k, VolumeOn(c, rest));
    }
  }
}
