/**
 The external container tool. Every command can fail, and a failed creation can leave a container
 behind. Which ID a new container gets and where it is mounted is the tool's choice.
 */
module Buildah {
  import opened Results
  import opened KeyNames

  /** What the tool is asked to do. */
  datatype Command =
    | Pull(image: string)
    | Inspect(container: string)
    | From(imageId: string)
    | Mount(container: string)
    | Remove(container: string)

  datatype MountAnswer = MountAnswer(container: string, path: Outcome<string>)

  class Tool {
    /** The image ID each existing container was built from. */
    var containers: map<string, string>
    /** Every container ID ever given out. */
    var used: set<string>
    /** The local images: what `pull --policy never` answers. */
    const images: map<string, string>
    /** The commands that failed so far, oldest first. */
    ghost var refused: seq<Command>
    /** Every mount asked for, with its answer, oldest first. */
    ghost var mountLog: seq<MountAnswer>

    ghost predicate Valid()
      reads this
    {
      containers.Keys <= used
    }

    constructor (images: map<string, string>)
      ensures Valid() && containers == map[] && this.images == images
    {
      containers, used, refused, mountLog := map[], {}, [], [];
      this.images := images;
    }

    method PullNever(image: string) returns (r: Outcome<string>)
      modifies this`refused
      ensures r.Done? ==> image in images && r.value == images[image]
      ensures refused == old(refused) + if r.Refused? then [Pull(image)] else []
    {
      if image in images {
        if * {
          return Done(images[image]);
        }
      }
      refused := refused + [Pull(image)];
      r := Refused;
    }

    method GetImageIdFromContainer(c: string) returns (r: Outcome<string>)
      modifies this`refused
      ensures r.Done? ==> c in containers && r.value == containers[c]
      ensures refused == old(refused) + if r.Refused? then [Inspect(c)] else []
    {
      if c in containers {
        if * {
          return Done(containers[c]);
        }
      }
      refused := refused + [Inspect(c)];
      r := Refused;
    }

    /** An ID never given out before: hexadecimal digits only. */
    method NewId() returns (c: string)
      ensures ValidId(c) && c !in used
    {
      c := "a";
      var rest := used;
      while c in rest
        invariant ValidId(c)
        invariant forall d :: d in used && d !in rest ==> |d| < |c|
        decreases rest
      {
        rest := rest - {c};
        c := c + "a";
      }
    }

    /** The container as it is built: a creation can fail before, or after with its ID lost. */
    method CreateContainer(newImageId: string) returns (r: Outcome<string>)
      requires Valid()
      modifies this
      ensures Valid() && mountLog == old(mountLog)
      ensures r.Done? ==> ValidId(r.value) && r.value !in old(used)
      ensures r.Done? ==> containers == old(containers)[r.value := newImageId] && used == old(used) + {r.value}
      ensures r.Refused? ==> Grown(old(containers), containers, old(used), newImageId) && old(used) <= used
      ensures refused == old(refused) + if r.Refused? then [From(newImageId)] else []
    {
      if * {
        var c := NewId();
        containers, used := containers[c := newImageId], used + {c};
        if * {
          return Done(c);
        }
      }
      refused := refused + [From(newImageId)];
      r := Refused;
    }

    method MountContainer(c: string) returns (r: Outcome<string>)
      modifies this`mountLog, this`refused
      ensures r.Done? ==> c in containers
      ensures mountLog == old(mountLog) + [MountAnswer(c, r)]
      ensures refused == old(refused) + if r.Refused? then [Mount(c)] else []
    {
      if c in containers {
        if * {
          var path: string := *;
          mountLog := mountLog + [MountAnswer(c, Done(path))];
          return Done(path);
        }
      }
      refused, mountLog := refused + [Mount(c)], mountLog + [MountAnswer(c, Refused)];
      r := Refused;
    }

    method DeleteContainer(c: string) returns (r: Outcome<()>)
      requires Valid()
      modifies this`containers, this`refused
      ensures Valid()
      ensures r.Done? ==> containers == old(containers) - {c}
      ensures r.Refused? ==> containers == old(containers)
      ensures refused == old(refused) + if r.Refused? then [Remove(c)] else []
    {
      if * {
        containers := containers - {c};
        return Done(());
      }
      refused := refused + [Remove(c)];
      r := Refused;
    }
  }

  /** The same containers, or one more that nobody knows the ID of. */
  ghost predicate Grown(before: map<string, string>, after: map<string, string>, used: set<string>, imageId: string) {
    after == before || exists c :: c !in used && after == before[c := imageId]
  }

  /** What a log has got between two moments of the tool's life. */
  function Since<T>(before: seq<T>, now: seq<T>): seq<T>
    requires before <= now
  {
    now[|before|..]
  }

  /** `isPathMounted`, over the mount points listed at the start of the round. */
  predicate IsPathMounted(mountPoints: seq<string>, path: string) {
    path != "" && path in mountPoints
  }
}
