/** The records shared by the two components. The two emotion-question shapes,
    which the components tell apart by the presence of an `imageUrl` field, are
    one tagged variant here. */
module Types {

  /** One labelled image tile. The `id` is opaque; `word` is the source's `label`
      field (`label` is a Dafny keyword). */
  datatype Pictogram = Pictogram(id: string, word: string, imageUrl: string)

  /** A named, ordered group of pictograms; list order is display order. */
  datatype PictogramCategory = PictogramCategory(name: string, pictograms: seq<Pictogram>)

  /** An answer option of a face question: an emotion name and an emoji. */
  datatype FaceOption = FaceOption(text: string, emoji: string)

  /** An answer option of a story question: an emotion name and its picture. */
  datatype StoryOption = StoryOption(emotion: string, imageUrl: string)

  datatype Question =
    | FaceQuestion(emotion: string, imageUrl: string, faceOptions: seq<FaceOption>)
    | StoryQuestion(story: string, correctEmotion: string, storyOptions: seq<StoryOption>)

  /** The labels of a row of pictograms, in order. */
  function Labels(ps: seq<Pictogram>): (r: seq<string>)
    ensures |r| == |ps|
    ensures forall i :: 0 <= i < |ps| ==> r[i] == ps[i].word
  {
    seq(|ps|, i requires 0 <= i < |ps| => ps[i].word)
  }

  /** The ids of a row of pictograms, in order. */
  function Ids(ps: seq<Pictogram>): (r: seq<string>)
    ensures |r| == |ps|
    ensures forall i :: 0 <= i < |ps| ==> r[i] == ps[i].id
  {
    seq(|ps|, i requires 0 <= i < |ps| => ps[i].id)
  }

  /** No two pictograms of the row share an id. */
  predicate DistinctIds(ps: seq<Pictogram>) {
    forall i, j :: 0 <= i < j < |ps| ==> ps[i].id != ps[j].id
  }
}
