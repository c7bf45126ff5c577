/** The skill levels shared by user profiles and matches: `'novato' | 'intermedio' | 'avanzado'`. */
module Levels {

  datatype Level = Novato | Intermedio | Avanzado
}
