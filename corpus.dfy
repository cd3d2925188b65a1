/** The knowledge base: the fixed, ordered table of administrative topics the
    assistant answers from (`administrativeData`). */
module Corpus {

  /** One topic: the question it answers, the answer text and its tags. */
  datatype Entry = Entry(question: string, answer: string, tags: seq<string>)

  const PassportAnswer: string := "Pour obtenir un passeport, vous devez vous rendre en mairie avec une pièce d'identité, un justificatif de domicile et deux photos d'identité. Le délai de traitement est généralement de 2 à 3 semaines."
  const IdCardAnswer: string := "Pour une carte d'identité, il faut fournir : une photo d'identité récente, un justificatif de domicile, un acte de naissance de moins de 3 mois et l'ancienne carte d'identité si renouvellement."
  const TaxAnswer: string := "La déclaration d'impôts en ligne se fait sur impots.gouv.fr. Vous avez besoin de votre numéro fiscal et d'un accès internet. La date limite est généralement fin mai."

  /** The three topics, in this order: passport, identity card, income tax.
      Every entry has a question, an answer and exactly two tags, and the
      first two topics share their second tag. */
  function AdministrativeData(): (data: seq<Entry>)
    ensures |data| == 3
    ensures forall i :: 0 <= i < |data| ==>
      data[i].question != "" && data[i].answer != "" && |data[i].tags| == 2
    ensures data[0].tags[0] == "passeport"
    ensures data[1].tags[0] == "cni"
    ensures data[2].tags[0] == "impôts"
    ensures data[0].tags[1] == data[1].tags[1] == "document officiel"
    ensures data[2].tags[1] == "déclaration"
  {
    [
      Entry("Comment obtenir un passeport ?", PassportAnswer, ["passeport", "document officiel"]),
      Entry("Quels documents pour une carte d'identité ?", IdCardAnswer, ["cni", "document officiel"]),
      Entry("Comment déclarer des impôts en ligne ?", TaxAnswer, ["impôts", "déclaration"])
    ]
  }

  /** The first tags identify the topics: they are non-empty and no two
      entries share one. */
  lemma FirstTagsDistinct()
    ensures forall i, j :: 0 <= i < j < |AdministrativeData()| ==>
      AdministrativeData()[i].tags[0] != AdministrativeData()[j].tags[0]
    ensures forall i :: 0 <= i < |AdministrativeData()| ==> AdministrativeData()[i].tags[0] != ""
  {
    var data := AdministrativeData();
    assert |data[0].tags[0]| == 9 && |data[1].tags[0]| == 3 && |data[2].tags[0]| == 6;
  }
}
