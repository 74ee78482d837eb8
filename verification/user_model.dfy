/** The user record the users page and the user card display. */
module UserModel {

  datatype Company = Company(name: string)

  datatype User = User(id: int, name: string, email: string, phone: string, website: string, company: Company)
}
