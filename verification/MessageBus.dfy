/** What modules exchange on the message bus: points, and whether an optional part is present. */
module MessageBus {

  datatype Option<+T> = None | Some(value: T)

  datatype Point = Point(tag: string, value: real)

  type Tags = map<string, real>

  /** A Go map lookup: a missing tag reads as zero. */
  function TagValue(tags: Tags, tag: string): real {
    if tag in tags then tags[tag] else 0.0
  }

  /** The tags after storing the points in order. */
  function Store(tags: Tags, points: seq<Point>): Tags
    decreases points
  {
    if points == [] then tags else Store(tags[points[0].tag := points[0].value], points[1..])
  }

  predicate Mentions(points: seq<Point>, tag: string) {
    exists i :: 0 <= i < |points| && points[i].tag == tag
  }

  lemma {:induction false} StoreAppend(tags: Tags, points: seq<Point>, q: Point)
    ensures Store(tags, points + [q]) == Store(tags, points)[q.tag := q.value]
    decreases points
  {
    if points == [] {
      assert Store(tags, [q]) == Store(tags[q.tag := q.value], []);
    } else {
      assert (points + [q])[1..] == points[1..] + [q];
      StoreAppend(tags[points[0].tag := points[0].value], points[1..], q);
    }
  }

  /** Each tag ends with the value of its last point; tags without a point keep theirs. */
  lemma {:induction false} StoredValue(tags: Tags, points: seq<Point>, tag: string)
    ensures !Mentions(points, tag) ==>
              TagValue(Store(tags, points), tag) == TagValue(tags, tag) && (tag in Store(tags, points) <==> tag in tags)
    ensures tag !in Store(tags, points) ==> TagValue(Store(tags, points), tag) == 0.0
    ensures forall i :: 0 <= i < |points| && points[i].tag == tag && !Mentions(points[i + 1..], tag) ==>
              tag in Store(tags, points) && Store(tags, points)[tag] == points[i].value
    decreases points
  {
    if points != [] {
      var rest := points[1..];
      var tags' := tags[points[0].tag := points[0].value];
      StoredValue(tags', rest, tag);
      if !Mentions(points, tag) {
        assert points[0].tag != tag;
        forall i | 0 <= i < |rest|
          ensures rest[i].tag != tag
        {
          assert points[i + 1].tag != tag;
        }
      }
      forall i | 0 <= i < |points| && points[i].tag == tag && !Mentions(points[i + 1..], tag)
        ensures tag in Store(tags, points) && Store(tags, points)[tag] == points[i].value
      {
        if i > 0 {
          assert rest[i - 1] == points[i] && rest[i..] == points[i + 1..];
          assert rest[(i - 1) + 1..] == points[i + 1..];
        } else {
          assert points[1..] == rest;
        }
      }
    }
  }
}
