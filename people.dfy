/** The record of one entry of the people list. The type's declaration is not part of this model;
    its fields are those the title reads (name, year of birth, year of death). */
module People {

  datatype Person = Person(name: string, born: int, died: int)
}
