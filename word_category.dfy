/** The category record that the word list file is decoded into. */
module Catalog {

  /** A themed list of words: its name, a display icon, and the words
      (upper-case names and phrases, possibly with spaces). */
  datatype WordCategory = WordCategory(nome: string, icone: string, palavras: seq<string>)
}
